/** Removing packages: the ordered deletion, trims, version limits of one extension, and deletion by version. */
module Removal {
  import opened Wrappers
  import opened Versions
  import opened Inventory
  import opened Protocol
  import opened Runs
  import opened Guarantees
  import opened Limits
  import opened Retention
  import opened Interruption
  import opened Summaries
  import opened Store

  // Listings and the records they show

  lemma KeptInListing(out: seq<Record>, packages: Packages, id: string)
    requires Lists(out, packages, id) && forall k | k in packages :: packages[k].key == k
    ensures KeptIn(out) == KeptVersions(packages, id)
  {
    forall v | v in KeptVersions(packages, id) ensures v in KeptIn(out) {
      var k :| k in packages && k.id == id && !packages[k].status.Deleted? && k.version == v;
      assert packages[k] in NotDeleted(out);
    }
  }

  lemma TargetsAreCutKeys(out: seq<Record>, packages: Packages, id: string, cut: set<string>)
    requires Lists(out, packages, id) && forall k | k in packages :: packages[k].key == k
    ensures KeysOf(Targets(out, cut)) == CutKeys(packages, id, cut)
    ensures forall p | p in Targets(out, cut) :: p.key in packages && packages[p.key] == p
  {
    forall k | k in CutKeys(packages, id, cut) ensures k in KeysOf(Targets(out, cut)) {
      assert packages[k] in Targets(out, cut);
    }
  }

  lemma {:induction false} TargetsAreDistinct(out: seq<Record>, cut: set<string>)
    requires DifferentKeys(out)
    ensures DifferentKeys(Targets(out, cut))
  {
    if |out| > 0 {
      var front, p := out[..|out| - 1], out[|out| - 1];
      TargetsAreDistinct(front, cut);
      assert forall q | q in Targets(front, cut) :: q.key != p.key;
    }
  }

  lemma {:induction false} DistinctKeysCount(ps: seq<Record>)
    requires DifferentKeys(ps)
    ensures |KeysOf(ps)| == |ps|
  {
    if |ps| > 0 {
      var front, p := ps[..|ps| - 1], ps[|ps| - 1];
      DistinctKeysCount(front);
      assert ps == front + [p];
      assert KeysOf(ps) == KeysOf(front) + {p.key};
    }
  }

  lemma CutVersionsHaveKeys(packages: Packages, id: string, cut: set<string>)
    requires cut <= KeptVersions(packages, id)
    ensures VersionsOfKeys(CutKeys(packages, id, cut)) == cut
    ensures CutKeys(packages, id, cut) == {} <==> cut == {}
  {
    forall v | v in cut ensures v in VersionsOfKeys(CutKeys(packages, id, cut)) {
      var k :| k in packages && k.id == id && !packages[k].status.Deleted? && k.version == v;
      assert k in CutKeys(packages, id, cut);
    }
    if k :| k in CutKeys(packages, id, cut) {
      assert k.version in cut;
    }
  }

  // Removal

  /** s is a state a deletion of keys passes through. */
  ghost predicate OnTheWay(d: Durable, keys: set<Key>, s: Durable) {
    exists gone, forgotten | forgotten <= gone <= NamesOf(d, keys) :: s == MidRemoval(d, keys, gone, forgotten)
  }

  ghost predicate AllOnTheWay(d: Durable, keys: set<Key>, t: seq<Event>, from: nat) {
    forall i | from <= i < |t| :: OnTheWay(d, keys, t[i].state)
  }

  /** s differs from d by some of names gone from the directory. */
  ghost predicate Unlinked(d: Durable, names: set<string>, s: Durable) {
    exists gone | gone <= names :: s == d.(disk := d.disk - gone)
  }

  ghost predicate AllUnlinked(d: Durable, names: set<string>, t: seq<Event>, from: nat) {
    forall i | from <= i < |t| :: Unlinked(d, names, t[i].state)
  }

  predicate Sticks(name: string, disk: Directory, stuck: set<string>) { name in disk && name in stuck }

  /** The entries that stay because they cannot be removed now. */
  function Stuck(names: set<string>, disk: Directory, stuck: set<string>): set<string> {
    set n | n in names && Bare(n) && Sticks(n, disk, stuck)
  }

  function Loose(names: set<string>, disk: Directory, stuck: set<string>): set<string> {
    set n | n in names && Bare(n) && !Sticks(n, disk, stuck)
  }

  /** t is u, or u and one more event leading to s. */
  ghost predicate OneStep(u: seq<Event>, t: seq<Event>, s: Durable) {
    u <= t && |t| <= |u| + 1 && (|t| == |u| + 1 ==> t[|u|].state == s)
  }

  lemma UnlinkedOneMore(d: Durable, names: set<string>, u: seq<Event>, t: seq<Event>, s: Durable, from: nat)
    requires AllUnlinked(d, names, u, from) && OneStep(u, t, s) && Unlinked(d, names, s)
    ensures AllUnlinked(d, names, t, from)
  {
    hide Unlinked;
    forall i | from <= i < |t| ensures Unlinked(d, names, t[i].state) {
      if i < |u| {
        assert t[i] == u[i];
      }
    }
  }

  /** os.Remove, where an entry that is not there counts as removed. */
  method EraseOne(db: Store, name: string, stuck: set<string>) returns (erased: bool)
    requires db.Valid()
    modifies db`disk, db`trail
    ensures db.Valid() && erased == !Sticks(name, old(db.disk), stuck)
    ensures db.State() == old(db.State()).(disk := old(db.disk) - (if erased then {name} else {}))
    ensures OneStep(old(db.trail), db.trail, db.State())
  {
    if name in db.disk && name in stuck {
      return false;
    }
    if name in db.disk {
      db.RemoveFile(name);
    }
    return true;
  }

  /** What is done once the entries in done have been dealt with. */
  ghost predicate ErasedSoFar(d: Durable, done: set<string>, stuck: set<string>, removed: set<string>,
                              remaining: nat, s: Durable) {
    && removed == Loose(done, d.disk, stuck) && removed <= done
    && remaining == |Stuck(done, d.disk, stuck)|
    && s == d.(disk := d.disk - removed)
  }

  lemma NothingErased(d: Durable, names: set<string>, stuck: set<string>, t: seq<Event>)
    ensures ErasedSoFar(d, {}, stuck, {}, 0, d)
    ensures AllUnlinked(d, names, t, |t|)
  {
    assert d.disk - {} == d.disk;
  }

  lemma EraseStep(d: Durable, done: set<string>, name: string, stuck: set<string>, removed: set<string>,
                  remaining: nat, s: Durable)
    requires ErasedSoFar(d, done, stuck, removed, remaining, s) && name !in done
    ensures Sticks(name, s.disk, stuck) == Sticks(name, d.disk, stuck)
    ensures !Bare(name) ==> ErasedSoFar(d, done + {name}, stuck, removed, remaining, s)
    ensures Bare(name) && Sticks(name, s.disk, stuck) ==>
        ErasedSoFar(d, done + {name}, stuck, removed, remaining + 1, s.(disk := s.disk - {}))
    ensures Bare(name) && !Sticks(name, s.disk, stuck) ==>
              ErasedSoFar(d, done + {name}, stuck, removed + {name}, remaining, s.(disk := s.disk - {name}))
  {
    hide Bare, Loose, Stuck;
    LooseOneMore(done, name, d.disk, stuck);
    StuckOneMore(done, name, d.disk, stuck);
    assert s.disk - {} == s.disk;
    assert d.disk - removed - {name} == d.disk - (removed + {name});
    assert Sticks(name, s.disk, stuck) == Sticks(name, d.disk, stuck);
  }

  lemma ErasedIsUnlinked(d: Durable, names: set<string>, done: set<string>, stuck: set<string>, removed: set<string>,
                         remaining: nat, s: Durable)
    requires ErasedSoFar(d, done, stuck, removed, remaining, s) && done <= names
    ensures Unlinked(d, names, s)
  {
    hide Bare, Sticks;
  }

  /** Removes the named entries, but those with a path in them and those the file system holds on to. */
  method EraseFiles(db: Store, names: set<string>, stuck: set<string>) returns (removed: set<string>, remaining: nat)
    requires db.Valid()
    modifies db`disk, db`trail
    ensures db.Valid() && old(db.trail) <= db.trail
    ensures removed == Loose(names, old(db.disk), stuck)
    ensures remaining == |Stuck(names, old(db.disk), stuck)|
    ensures db.State() == old(db.State()).(disk := old(db.disk) - removed)
    ensures AllUnlinked(old(db.State()), names, db.trail, |old(db.trail)|)
  {
    hide IsRun, Store.Consistent, ErasedSoFar, Unlinked, AllUnlinked, OneStep, Bare, Sticks;
    ghost var d, from := db.State(), |db.trail|;
    removed, remaining := {}, 0;
    NothingErased(d, names, stuck, db.trail);
    var rest := names;
    assert names - rest == {};
    while rest != {}
      invariant rest <= names && db.Valid() && old(db.trail) <= db.trail
      invariant ErasedSoFar(d, names - rest, stuck, removed, remaining, db.State())
      invariant AllUnlinked(d, names, db.trail, from)
    {
      var name :| name in rest;
      ghost var done, was := names - rest, db.trail;
      EraseStep(d, done, name, stuck, removed, remaining, db.State());
      rest := rest - {name};
      assert done + {name} == names - rest;
      if Bare(name) {
        var erased := EraseOne(db, name, stuck);
        if erased {
          removed := removed + {name};
        } else {
          remaining := remaining + 1;
        }
        ErasedIsUnlinked(d, names, names - rest, stuck, removed, remaining, db.State());
        UnlinkedOneMore(d, names, was, db.trail, db.State(), from);
      }
    }
    assert names - rest == names;
    ErasedInTheEnd(d, names, stuck, removed, remaining, db.State());
  }

  lemma ErasedInTheEnd(d: Durable, names: set<string>, stuck: set<string>, removed: set<string>, remaining: nat,
                       s: Durable)
    requires ErasedSoFar(d, names, stuck, removed, remaining, s)
    ensures removed == Loose(names, d.disk, stuck) && remaining == |Stuck(names, d.disk, stuck)|
    ensures s == d.(disk := d.disk - removed)
  {
  }

  lemma LooseOneMore(done: set<string>, name: string, disk: Directory, stuck: set<string>)
    ensures Loose(done + {name}, disk, stuck) ==
            Loose(done, disk, stuck) + (if Bare(name) && !Sticks(name, disk, stuck) then {name} else {})
  {
    hide Bare, Sticks;
  }

  lemma StuckOneMore(done: set<string>, name: string, disk: Directory, stuck: set<string>)
    requires name !in done
    ensures |Stuck(done + {name}, disk, stuck)| ==
            |Stuck(done, disk, stuck)| + (if Bare(name) && Sticks(name, disk, stuck) then 1 else 0)
  {
    hide Bare, Sticks;
    if Bare(name) && Sticks(name, disk, stuck) {
      assert Stuck(done + {name}, disk, stuck) == Stuck(done, disk, stuck) + {name};
    } else {
      assert Stuck(done + {name}, disk, stuck) == Stuck(done, disk, stuck);
    }
  }

  /** The files to remove, each once: those remembered for the targets, then the targets' own file names. */
  method FilesToRemove(db: Store, targets: seq<Record>) returns (names: seq<string>)
    requires DifferentKeys(targets) && forall p | p in targets :: p.key in db.packages && db.packages[p.key] == p
    ensures Distinct(names) && Elements(names) == NamesOf(db.State(), KeysOf(targets))
  {
    hide NamesOf;
    var keys := [];
    for i := 0 to |targets|
      invariant |keys| == i && forall j | 0 <= j < i :: keys[j] == targets[j].key
    {
      keys := keys + [targets[i].key];
    }
    names := db.FilesHolding(keys);
    ghost var held := names;
    for i := 0 to |targets|
      invariant Distinct(names)
      invariant forall n :: n in names <==> n in held || exists j | 0 <= j < i :: targets[j].filename == n && n != ""
    {
      var name := targets[i].filename;
      if name != "" && name !in names {
        names := names + [name];
      }
    }
    NamesAreThose(db.State(), targets, keys, names, held);
  }

  /** What is left to retry: the names meant to go that are there and cannot be removed. */
  lemma StuckMeans(d: Durable, keys: set<Key>, stuck: set<string>, n: string)
    requires keys <= d.packages.Keys
    ensures var held := n in d.files && d.files[n].contents.Valid? && d.files[n].contents.key in keys;
      n in Stuck(NamesOf(d, keys), d.disk, stuck) <==>
      && n != "" && '/' !in n && (held || exists k | k in keys :: d.packages[k].filename == n)
      && n in d.disk && n in stuck
  {
  }

  lemma NamesAreThose(d: Durable, targets: seq<Record>, keys: seq<Key>, names: seq<string>, held: seq<string>)
    requires forall p | p in targets :: p.key in d.packages && d.packages[p.key] == p
    requires |keys| == |targets| && forall j | 0 <= j < |keys| :: keys[j] == targets[j].key
    requires forall n :: n in held <==> HoldsOneOf(d.files, n, keys)
    requires forall n :: n in names <==>
        n in held || exists j | 0 <= j < |targets| :: targets[j].filename == n && n != ""
    ensures Elements(names) == NamesOf(d, KeysOf(targets))
  {
    forall k ensures k in keys <==> k in KeysOf(targets) {
      if k in keys {
        var j :| 0 <= j < |keys| && keys[j] == k;
        assert targets[j] in targets;
      }
      if k in KeysOf(targets) {
        var p :| p in targets && p.key == k;
        var j :| 0 <= j < |targets| && targets[j] == p;
        assert keys[j] == k;
      }
    }
    forall n ensures n in names <==> n in NamesOf(d, KeysOf(targets)) {
      if j :| 0 <= j < |targets| && targets[j].filename == n && n != "" {
        assert targets[j] in targets && targets[j].key in KeysOf(targets);
      }
      if k :| k in KeysOf(targets) && d.packages[k].filename == n && n != "" {
        var p :| p in targets && p.key == k;
        var j :| 0 <= j < |targets| && targets[j] == p;
      }
    }
  }

  lemma UnlinkedIsOnTheWay(d: Durable, keys: set<Key>, t: seq<Event>, from: nat)
    requires AllUnlinked(MarkDeletedTx(d, keys), NamesOf(d, keys), t, from)
    ensures AllOnTheWay(d, keys, t, from)
  {
    forall i | from <= i < |t| ensures OnTheWay(d, keys, t[i].state) {
      assert Unlinked(MarkDeletedTx(d, keys), NamesOf(d, keys), t[i].state);
      var gone :| gone <= NamesOf(d, keys) && t[i].state == MarkDeletedTx(d, keys).(disk := d.disk - gone);
      assert t[i].state == MidRemoval(d, keys, gone, {});
    }
  }

  lemma LooseIsErasable(d: Durable, keys: set<Key>, stuck: set<string>)
    ensures Loose(NamesOf(d, keys), d.disk, stuck) == Erasable(d, keys, stuck) <= NamesOf(d, keys)
    ensures MidRemoval(d, keys, {}, {}) == MarkDeletedTx(d, keys)
    ensures OnTheWay(d, keys, MarkDeletedTx(d, keys))
    ensures forall forgets | forgets in {true, false} :: OnTheWay(d, keys, Removed(d, keys, stuck, forgets))
  {
    var gone := Erasable(d, keys, stuck);
    assert MidRemoval(d, keys, {}, {}) == MarkDeletedTx(d, keys);
    assert Removed(d, keys, stuck, true) == MidRemoval(d, keys, gone, gone);
    assert Removed(d, keys, stuck, false) == MidRemoval(d, keys, gone, {});
  }

  /**
   Deletes the targets' files, keeping their records as deleted. The deletion is recorded first. stuck holds
   the entries the file system refuses to remove; forgets tells whether the last transaction goes through.
   */
  method Remove(db: Store, targets: seq<Record>, stuck: set<string>, forgets: bool) returns (remaining: nat)
    requires db.Valid() && DifferentKeys(targets) && forall p | p in targets ::
        p.key in db.packages && db.packages[p.key] == p
    modifies db`packages, db`marked, db`dirty, db`files, db`ids, db`disk, db`trail
    ensures db.Valid() && old(db.trail) <= db.trail
    ensures db.State() == Removed(old(db.State()), KeysOf(targets), stuck, forgets)
    ensures AllOnTheWay(old(db.State()), KeysOf(targets), db.trail, |old(db.trail)|)
    ensures MarksOnly(old(db.marked), db.marked, targets)
    ensures remaining == |Stuck(NamesOf(old(db.State()), KeysOf(targets)), old(db.disk), stuck)|
  {
    hide IsRun, Store.Consistent, NamesOf, MarkedDeleted, OnTheWay, Unlinked, DifferentKeys;
    ghost var d, keys := db.State(), KeysOf(targets);
    var names := FilesToRemove(db, targets);
    LooseIsErasable(d, keys, stuck);
    db.MarkDeleted(targets);
    ghost var marked := db.trail;
    var removed;
    removed, remaining := EraseFiles(db, Elements(names), stuck);
    UnlinkedIsOnTheWay(d, keys, db.trail, |marked|);
    if forgets {
      db.ForgetFiles(removed);
    }
  }

  /** With names apart, a removal keeps the manager's standing at every point. */
  lemma OnTheWayInService(standing: Standing, d: Durable, keys: set<Key>, t: seq<Event>, from: nat)
    requires InService(standing, d) && NamesApart(d) && keys <= d.packages.Keys && AllOnTheWay(d, keys, t, from)
    ensures AllInService(standing, t, from)
  {
    hide InService, NamesApart;
    forall i | from <= i < |t| ensures InService(standing, t[i].state) {
      assert OnTheWay(d, keys, t[i].state);
      var gone, forgotten :| forgotten <= gone <= NamesOf(d, keys)
          && t[i].state == MidRemoval(d, keys, gone, forgotten);
      RemovalStaysInService(standing, d, keys, gone, forgotten);
    }
  }

  lemma RemovedInService(standing: Standing, d: Durable, keys: set<Key>, stuck: set<string>, forgets: bool)
    requires InService(standing, d) && NamesApart(d) && keys <= d.packages.Keys
    ensures InService(standing, Removed(d, keys, stuck, forgets)) && NamesApart(Removed(d, keys, stuck, forgets))
  {
    hide InService, NamesApart, NamesOf;
    LooseIsErasable(d, keys, stuck);
    var gone := Erasable(d, keys, stuck);
    RemovalStaysInService(standing, d, keys, gone, if forgets then gone else {});
    assert d.files - {} == d.files;
  }

  /** In service, with names apart: what a removal needs and keeps. */
  ghost predicate Deletable(standing: Standing, d: Durable) {
    InService(standing, d) && NamesApart(d)
  }

  /** Whatever the standing of d, with names apart e has it too, and every state on the way from d to e. */
  ghost predicate StaysDeletable(d: Durable, e: Durable, t: seq<Event>, from: nat) {
    forall standing | Deletable(standing, d) :: Deletable(standing, e) && AllInService(standing, t, from)
  }

  lemma NothingHappened(d: Durable, t: seq<Event>)
    ensures StaysDeletable(d, d, t, |t|)
  {
  }

  lemma ServiceGoesOn(d: Durable, s: Durable, e: Durable, u: seq<Event>, t: seq<Event>, from: nat)
    requires u <= t && StaysDeletable(d, s, u, from) && StaysDeletable(s, e, t, |u|)
    ensures StaysDeletable(d, e, t, from)
  {
    hide InService, NamesApart;
    forall standing | Deletable(standing, d) ensures Deletable(standing, e) && AllInService(standing, t, from) {
      forall i | from <= i < |t| ensures InService(standing, t[i].state) {
        if i < |u| {
          assert t[i] == u[i];
        }
      }
    }
  }

  lemma RemovalStaysDeletable(d: Durable, keys: set<Key>, stuck: set<string>, forgets: bool, changes: bool, e: Durable,
                              t: seq<Event>, from: nat)
    requires keys <= d.packages.Keys && e == (if changes then Removed(d, keys, stuck, forgets) else d)
    requires AllOnTheWay(d, keys, t, from)
    ensures StaysDeletable(d, e, t, from)
  {
    hide InService, NamesApart, Removed, OnTheWay;
    forall standing | Deletable(standing, d) ensures Deletable(standing, e) && AllInService(standing, t, from) {
      RemovedInService(standing, d, keys, stuck, forgets);
      OnTheWayInService(standing, d, keys, t, from);
    }
  }

  lemma CutKeysAreKnown(packages: Packages, id: string, cut: set<string>)
    ensures CutKeys(packages, id, cut) <= packages.Keys
  {
  }

  // Trims

  /** e is d after a trim of id that cut these versions. */
  ghost predicate TrimsTo(d: Durable, id: string, cut: set<string>, stuck: set<string>, forgets: bool, e: Durable) {
    && IsCut(KeptVersions(d.packages, id), LimitOf(d, id), cut)
    && e == if cut == {} then d else Removed(d, CutKeys(d.packages, id, cut), stuck, forgets)
  }

  /** Where the packages of a cut stand: which records they are, and how many. */
  lemma CutOfListing(out: seq<Record>, d: Durable, id: string, keep: int, cut: set<string>)
    requires Lists(out, d.packages, id) && forall k | k in d.packages :: d.packages[k].key == k
    requires IsCut(KeptIn(out), keep, cut)
    ensures IsCut(KeptVersions(d.packages, id), keep, cut)
    ensures KeysOf(Targets(out, cut)) == CutKeys(d.packages, id, cut)
    ensures |Targets(out, cut)| == |CutKeys(d.packages, id, cut)|
    ensures forall p | p in Targets(out, cut) :: p.key in d.packages && d.packages[p.key] == p
    ensures VersionsIn(Targets(out, cut)) == cut && DifferentKeys(Targets(out, cut))
  {
    hide CompareVersions, KeptVersions;
    KeptInListing(out, d.packages, id);
    TargetsAreCutKeys(out, d.packages, id, cut);
    TargetsAreDistinct(out, cut);
    DistinctKeysCount(Targets(out, cut));
    CutVersionsHaveKeys(d.packages, id, cut);
    assert VersionsIn(Targets(out, cut)) == VersionsOfKeys(KeysOf(Targets(out, cut)));
  }

  /** Deletes an extension's versions beyond its limit, and reports the versions and the number of packages. */
  method Trim(db: Store, id: string, stuck: set<string>, forgets: bool)
    returns (versions: seq<string>, count: nat, ghost cut: set<string>)
    requires db.Valid()
    modifies db
    ensures db.Valid() && old(db.trail) <= db.trail
    ensures TrimsTo(old(db.State()), id, cut, stuck, forgets, db.State())
    ensures AllOnTheWay(old(db.State()), CutKeys(old(db.packages), id, cut), db.trail, |old(db.trail)|)
    ensures Distinct(versions) && OldestFirst(versions) && Elements(versions) == cut
    ensures count == |CutKeys(old(db.packages), id, cut)|
  {
    hide IsRun, CompareVersions, IsCut, OnTheWay, Removed, Lists, CacheAgrees;
    ghost var d := db.State();
    var keep := db.Keep(id);
    if keep == 0 {
      NothingCut(KeptVersions(d.packages, id), 0);
      return [], 0, {};
    }
    var packages := db.List(id);
    var targets;
    targets, cut := Beyond(packages, keep);
    CutOfListing(packages, d, id, keep, cut);
    if |targets| == 0 {
      return [], 0, {};
    }
    var _ := Remove(db, targets, stuck, forgets);
    versions := VersionsOf(targets);
    count := |targets|;
  }

  lemma TrimMarks(d: Durable, id: string, cut: set<string>, stuck: set<string>, forgets: bool, e: Durable)
    requires TrimsTo(d, id, cut, stuck, forgets, e)
    ensures e.packages == MarkedDeleted(d.packages, CutKeys(d.packages, id, cut))
    ensures e.dirty == d.dirty + CutKeys(d.packages, id, cut) && e.limits == d.limits && e.keep == d.keep
  {
    hide CompareVersions;
    if cut == {} {
      assert CutKeys(d.packages, id, cut) == {};
    }
  }

  lemma MarkingFramesOthers(packages: Packages, keys: set<Key>, id: string)
    requires forall k | k in keys :: k.id != id
    ensures KeptVersions(MarkedDeleted(packages, keys), id) == KeptVersions(packages, id)
  {
    var after := MarkedDeleted(packages, keys);
    assert forall k | k in packages && k.id == id :: after[k] == packages[k];
  }

  lemma CutLeavesTheRest(packages: Packages, id: string, cut: set<string>)
    ensures KeptVersions(MarkedDeleted(packages, CutKeys(packages, id, cut)), id) == KeptVersions(packages, id) - cut
  {
    var after := MarkedDeleted(packages, CutKeys(packages, id, cut));
    forall k | k in packages && k.id == id
      ensures after[k].status.Deleted? <==> packages[k].status.Deleted? || k.version in cut
    {
    }
  }

  /** After a trim the extension is within its limit, and the others have the versions they had. */
  lemma TrimReachesLimit(d: Durable, id: string, cut: set<string>, stuck: set<string>, forgets: bool, e: Durable)
    requires TrimsTo(d, id, cut, stuck, forgets, e)
    ensures WithinLimit(e, id) && LimitOf(e, id) == LimitOf(d, id)
    ensures KeptVersions(e.packages, id) == KeptVersions(d.packages, id) - cut
    ensures forall other | other != id :: KeptVersions(e.packages, other) == KeptVersions(d.packages, other)
  {
    hide CompareVersions, KeptVersions, MarkedDeleted, Removed;
    TrimMarks(d, id, cut, stuck, forgets, e);
    CutLeavesTheRest(d.packages, id, cut);
    forall other | other != id ensures KeptVersions(e.packages, other) == KeptVersions(d.packages, other) {
      MarkingFramesOthers(d.packages, CutKeys(d.packages, id, cut), other);
    }
  }

  // Several trims

  /** The records that trims with these cuts delete. */
  function TrimmedKeys(packages: Packages, cuts: map<string, set<string>>): set<Key> {
    set k | k in packages && k.id in cuts && k.version in cuts[k.id] && !packages[k].status.Deleted?
  }

  /** s is d with some extensions trimmed, in whatever order. */
  ghost predicate TrimsSoFar(d: Durable, cuts: map<string, set<string>>, ids: set<string>, s: Durable) {
    && AreCuts(d, ids, cuts)
    && s.packages == Trimmed(d.packages, cuts)
    && s.dirty == d.dirty + TrimmedKeys(d.packages, cuts)
    && s.limits == d.limits && s.keep == d.keep && s.trusted == d.trusted
    && (TrimmedKeys(d.packages, cuts) == {} ==> s == d)
  }

  lemma NoTrims(d: Durable)
    ensures TrimsSoFar(d, map[], {}, d) && TrimmedKeys(d.packages, map[]) == {}
  {
  }

  lemma TrimmedKeepsOthers(packages: Packages, cuts: map<string, set<string>>, id: string)
    requires id !in cuts
    ensures KeptVersions(Trimmed(packages, cuts), id) == KeptVersions(packages, id)
    ensures forall cut :: CutKeys(Trimmed(packages, cuts), id, cut) == CutKeys(packages, id, cut)
  {
    assert forall k | k in packages && k.id == id :: Trimmed(packages, cuts)[k] == packages[k];
  }

  lemma TrimmedOneMore(packages: Packages, cuts: map<string, set<string>>, id: string, cut: set<string>)
    requires id !in cuts
    ensures MarkedDeleted(Trimmed(packages, cuts), CutKeys(packages, id, cut)) == Trimmed(packages, cuts[id := cut])
    ensures TrimmedKeys(packages, cuts[id := cut]) == TrimmedKeys(packages, cuts) + CutKeys(packages, id, cut)
    ensures |TrimmedKeys(packages, cuts[id := cut])| == |TrimmedKeys(packages, cuts)| + |CutKeys(packages, id, cut)|
  {
    hide TrimmedKeys, CutKeys, Trimmed, MarkedDeleted;
    MoreTrimmedKeys(packages, cuts, id, cut);
    MoreTrimmed(packages, cuts, id, cut);
  }

  lemma MoreTrimmedKeys(packages: Packages, cuts: map<string, set<string>>, id: string, cut: set<string>)
    requires id !in cuts
    ensures TrimmedKeys(packages, cuts[id := cut]) == TrimmedKeys(packages, cuts) + CutKeys(packages, id, cut)
    ensures TrimmedKeys(packages, cuts) !! CutKeys(packages, id, cut)
  {
  }

  lemma MoreTrimmed(packages: Packages, cuts: map<string, set<string>>, id: string, cut: set<string>)
    requires id !in cuts
    ensures MarkedDeleted(Trimmed(packages, cuts), CutKeys(packages, id, cut)) == Trimmed(packages, cuts[id := cut])
  {
    hide TrimmedKeys;
  }

  /** One more extension trimmed. */
  lemma TrimStep(d: Durable, cuts: map<string, set<string>>, ids: set<string>, s: Durable,
                 id: string, cut: set<string>, stuck: set<string>, forgets: bool, e: Durable)
    requires TrimsSoFar(d, cuts, ids, s) && id !in ids && TrimsTo(s, id, cut, stuck, forgets, e)
    ensures TrimsSoFar(d, cuts[id := cut], ids + {id}, e)
    ensures CutKeys(s.packages, id, cut) == CutKeys(d.packages, id, cut)
  {
    hide IsCut, KeptVersions, CutKeys, MarkedDeleted, Trimmed, TrimmedKeys;
    TrimmedKeepsOthers(d.packages, cuts, id);
    TrimMarks(s, id, cut, stuck, forgets, e);
    TrimmedOneMore(d.packages, cuts, id, cut);
    if TrimmedKeys(d.packages, cuts[id := cut]) == {} {
      NoKeysNoCut(s, id, cut);
    }
  }

  lemma NoKeysNoCut(d: Durable, id: string, cut: set<string>)
    requires IsCut(KeptVersions(d.packages, id), LimitOf(d, id), cut) && CutKeys(d.packages, id, cut) == {}
    ensures cut == {}
  {
    hide CompareVersions;
    CutVersionsHaveKeys(d.packages, id, cut);
  }

  /** Whether a state would be quiet once the files are trusted, with names apart. */
  ghost predicate AtRest(d: Durable) {
    Quiet(d.(trusted := true)) && NamesApart(d)
  }

  ghost predicate AllAtRest(t: seq<Event>, from: nat) {
    forall i | from <= i < |t| :: AtRest(t[i].state)
  }

  lemma RemovalStaysAtRest(d: Durable, keys: set<Key>, s: Durable)
    requires AtRest(d) && keys <= d.packages.Keys && OnTheWay(d, keys, s)
    ensures AtRest(s)
  {
    hide Quiet;
    var gone, forgotten :| forgotten <= gone <= NamesOf(d, keys) && s == MidRemoval(d, keys, gone, forgotten);
    var e := d.(trusted := true);
    assert NamesOf(e, keys) == NamesOf(d, keys) && NamesApart(e);
    RemovalKeepsQuiet(e, keys, gone, forgotten);
    assert MidRemoval(e, keys, gone, forgotten) == s.(trusted := true);
  }

  lemma TrimStaysAtRest(d: Durable, id: string, cut: set<string>, stuck: set<string>, forgets: bool, e: Durable,
                        u: seq<Event>, t: seq<Event>, from: nat)
    requires AtRest(d) && TrimsTo(d, id, cut, stuck, forgets, e)
    requires u <= t && AllAtRest(u, from) && AllOnTheWay(d, CutKeys(d.packages, id, cut), t, |u|)
    ensures AtRest(e) && AllAtRest(t, from)
  {
    hide AtRest, OnTheWay, Removed, IsCut;
    var keys := CutKeys(d.packages, id, cut);
    LooseIsErasable(d, keys, stuck);
    if cut != {} {
      RemovalStaysAtRest(d, keys, e);
    }
    forall i | from <= i < |t| ensures AtRest(t[i].state) {
      if i < |u| {
        assert t[i] == u[i];
      } else {
        RemovalStaysAtRest(d, keys, t[i].state);
      }
    }
  }

  // What a deletion amounts to

  function StoredAmong(packages: Packages, keys: set<Key>): set<Key> {
    set k | k in keys && k in packages && packages[k].status == Stored
  }

  function StoredBytes(ps: seq<Record>): nat {
    if |ps| == 0 then 0
    else StoredBytes(ps[..|ps| - 1]) + if ps[|ps| - 1].status == Stored then ps[|ps| - 1].digest.size else 0
  }

  lemma {:induction false} StoredBytesAreSizes(packages: Packages, ps: seq<Record>)
    requires DifferentKeys(ps) && forall p | p in ps :: p.key in packages && packages[p.key] == p
    ensures StoredBytes(ps) == SizeSum(packages, StoredAmong(packages, KeysOf(ps)))
  {
    hide SizeSum;
    if |ps| > 0 {
      var front, p := ps[..|ps| - 1], ps[|ps| - 1];
      assert ps == front + [p] && p in ps;
      StoredBytesAreSizes(packages, front);
      assert KeysOf(ps) == KeysOf(front) + {p.key};
      StoredOneMore(packages, KeysOf(front), p);
    } else {
      assert KeysOf(ps) == {};
      NothingStored(packages);
    }
  }

  lemma NothingStored(packages: Packages)
    ensures SizeSum(packages, StoredAmong(packages, {})) == 0
  {
  }

  lemma StoredOneMore(packages: Packages, keys: set<Key>, p: Record)
    requires p.key !in keys && p.key in packages && packages[p.key] == p
    ensures SizeSum(packages, StoredAmong(packages, keys + {p.key})) ==
            SizeSum(packages, StoredAmong(packages, keys)) + (if p.status == Stored then p.digest.size else 0)
  {
    hide SizeSum;
    if p.status == Stored {
      SizeSumAdds(packages, StoredAmong(packages, keys), p.key);
      assert StoredAmong(packages, keys + {p.key}) == StoredAmong(packages, keys) + {p.key};
    } else {
      assert StoredAmong(packages, keys + {p.key}) == StoredAmong(packages, keys);
    }
  }

  /** The bytes of stored packages, and those of packages recorded as deleted. */
  ghost function TotalBytes(packages: Packages): nat { SizeSum(packages, WithStatus(packages, Stored)) }

  ghost function DeletedBytes(packages: Packages): nat { SizeSum(packages, WithStatus(packages, Deleted)) }

  /**
   Bytes are conserved: a deletion lowers the stored bytes by exactly what it reports, and the deleted bytes
   rise by the sizes of all its targets, stored or not.
   */
  lemma BytesAreConserved(packages: Packages, keys: set<Key>)
    requires keys <= NotDeletedKeys(packages)
    ensures var after := MarkedDeleted(packages, keys);
      && TotalBytes(after) + SizeSum(packages, StoredAmong(packages, keys)) == TotalBytes(packages)
      && DeletedBytes(after) == DeletedBytes(packages) + SizeSum(packages, keys)
  {
    var after, gone := MarkedDeleted(packages, keys), StoredAmong(packages, keys);
    var stored, deleted := WithStatus(packages, Stored), WithStatus(packages, Deleted);
    assert WithStatus(after, Stored) == stored - gone && stored == (stored - gone) + gone;
    assert WithStatus(after, Deleted) == deleted + keys;
    SizeSumFrames(packages, after, stored - gone);
    SizeSumJoins(packages, stored - gone, gone);
    SizeSumFrames(packages, after, deleted + keys);
    SizeSumJoins(packages, deleted, keys);
  }

  /** What a version limit removes, summed over extensions. */
  class TrimReport {
    var extensions: nat
    var versions: nat
    var packages: nat
    var bytes: nat
    var remaining: nat
    var removed: seq<string>

    constructor ()
      ensures extensions == versions == packages == bytes == remaining == 0 && removed == []
    {
      extensions, versions, packages, bytes, remaining, removed := 0, 0, 0, 0, 0, [];
    }

    method Add(targets: seq<Record>)
      modifies this
      ensures extensions == old(extensions) + if targets == [] then 0 else 1
      ensures versions == old(versions) + |VersionsIn(targets)|
      ensures packages == old(packages) + |targets|
      ensures bytes == old(bytes) + StoredBytes(targets)
      ensures remaining == old(remaining) && removed == old(removed)
    {
      if |targets| == 0 {
        assert VersionsIn(targets) == {};
        return;
      }
      extensions := extensions + 1;
      for i := 0 to |targets|
        invariant bytes == old(bytes) + StoredBytes(targets[..i])
        invariant extensions == old(extensions) + 1 && versions == old(versions) && packages == old(packages)
        invariant remaining == old(remaining) && removed == old(removed)
      {
        assert targets[..i + 1][..i] == targets[..i];
        if targets[i].status == Stored {
          bytes := bytes + targets[i].digest.size;
        }
      }
      assert targets[..|targets|] == targets;
      var distinct := VersionsOf(targets);
      DistinctSize(distinct);
      versions := versions + |distinct|;
      packages := packages + |targets|;
    }
  }

  /** What a report about one extension says when these versions of it are cut. */
  ghost predicate Reports(t: TrimReport, packages: Packages, id: string, cut: set<string>)
    reads t`extensions, t`versions, t`packages, t`bytes, t`removed
  {
    var keys := CutKeys(packages, id, cut);
    && t.extensions == (if cut == {} then 0 else 1)
    && t.versions == |cut| && t.packages == |keys|
    && t.bytes == SizeSum(packages, StoredAmong(packages, keys))
    && Elements(t.removed) == cut && OldestFirst(t.removed) && Distinct(t.removed)
  }

  /** What a change of an extension's limit cuts and reports, and the state e it leaves. */
  ghost predicate AnswersLimit(d: Durable, id: string, own: Option<nat>, dryRun: bool, stuck: set<string>,
                               forgets: bool, t: TrimReport, cut: set<string>, e: Durable)
    reads t
  {
    var limited := SetKeepTx(d, id, own);
    && IsCut(KeptVersions(d.packages, id), LimitOf(limited, id), cut)
    && Reports(t, d.packages, id, cut)
    && t.remaining == (if dryRun then 0 else |Stuck(NamesOf(d, CutKeys(d.packages, id, cut)), d.disk, stuck)|)
    && (if dryRun then e == d else TrimsTo(limited, id, cut, stuck, forgets, e))
  }

  /**
   Gives an extension its own limit, or with None the library's, and trims it. A dry run changes nothing and
   reports the same.
   */
  method SetExtensionLimit(db: Store, id: string, own: Option<nat>, dryRun: bool, stuck: set<string>, forgets: bool)
    returns (keep: nat, t: TrimReport, ghost cut: set<string>)
    requires db.Valid()
    modifies db
    ensures db.Valid() && old(db.trail) <= db.trail && fresh(t)
    ensures keep == LimitOf(SetKeepTx(old(db.State()), id, own), id)
    ensures AnswersLimit(old(db.State()), id, own, dryRun, stuck, forgets, t, cut, db.State())
    ensures dryRun ==> db.trail == old(db.trail)
    ensures !dryRun ==>
      var limited := SetKeepTx(old(db.State()), id, own);
      && |db.trail| > |old(db.trail)| && db.trail[|old(db.trail)|].state == limited
      && AllOnTheWay(limited, CutKeys(limited.packages, id, cut), db.trail, |old(db.trail)| + 1)
  {
    hide IsRun, CompareVersions, IsCut, OnTheWay, AllOnTheWay, Removed, Lists, CacheAgrees, Reports, KeptVersions,
      CutKeys, Targets, TrimsTo, SetKeepTx, LimitOf, MarksOnly, Stuck, NamesOf, DifferentKeys, InKeyOrder, KeptIn,
      VersionsIn, KeysOf, IsInjective;
    ghost var d := db.State();
    LimitSet(d, id, own);
    keep := if own.Some? then own.value else db.keep;
    var packages := db.List(id);
    var targets;
    targets, cut := Beyond(packages, keep);
    CutOfListing(packages, d, id, keep, cut);
    t := ReportOn(packages, d.packages, id, targets, cut);
    if !dryRun {
      t.remaining := ApplyLimit(db, id, own, targets, cut, stuck, forgets);
    }
  }

  /** What is set is what applies afterwards, to this extension and no other. */
  lemma LimitApplies(d: Durable, id: string, own: Option<nat>, other: string)
    ensures LimitOf(SetKeepTx(d, id, own), other) ==
            if other != id then LimitOf(d, other) else if own.Some? then own.value else d.keep
  {
  }

  lemma LimitSet(d: Durable, id: string, own: Option<nat>)
    ensures LimitOf(SetKeepTx(d, id, own), id) == if own.Some? then own.value else d.keep
    ensures SetKeepTx(d, id, own).packages == d.packages
  {
  }

  /** Saves an extension's limit and removes the packages it cuts. */
  method ApplyLimit(db: Store, id: string, own: Option<nat>, targets: seq<Record>, ghost cut: set<string>,
                    stuck: set<string>, forgets: bool)
    returns (remaining: nat)
    requires db.Valid() && DifferentKeys(targets) && forall p | p in targets ::
        p.key in db.packages && db.packages[p.key] == p
    requires KeysOf(targets) == CutKeys(db.packages, id, cut) && (targets == [] <==> cut == {})
    requires IsCut(KeptVersions(db.packages, id), LimitOf(SetKeepTx(db.State(), id, own), id), cut)
    modifies db
    ensures db.Valid() && old(db.trail) <= db.trail
    ensures var limited := SetKeepTx(old(db.State()), id, own);
      && TrimsTo(limited, id, cut, stuck, forgets, db.State())
      && |db.trail| > |old(db.trail)| && db.trail[|old(db.trail)|].state == limited
      && AllOnTheWay(limited, CutKeys(limited.packages, id, cut), db.trail, |old(db.trail)| + 1)
    ensures remaining == |Stuck(NamesOf(old(db.State()), CutKeys(old(db.packages), id, cut)), old(db.disk), stuck)|
  {
    hide IsRun, CompareVersions, IsCut, OnTheWay, AllOnTheWay, Removed, CacheAgrees, KeptVersions, CutKeys;
    db.SetKeep(id, own);
    NothingOnTheWay(db.State(), CutKeys(db.packages, id, cut), db.trail);
    remaining := 0;
    if |targets| > 0 {
      remaining := Remove(db, targets, stuck, forgets);
    }
  }

  lemma NothingOnTheWay(d: Durable, keys: set<Key>, t: seq<Event>)
    ensures AllOnTheWay(d, keys, t, |t|)
  {
  }

  method ReportOn(out: seq<Record>, ghost packages: Packages, ghost id: string, targets: seq<Record>,
                  ghost cut: set<string>)
    returns (t: TrimReport)
    requires Lists(out, packages, id) && forall k | k in packages :: packages[k].key == k
    requires cut <= KeptIn(out) && targets == Targets(out, cut) && (targets == [] <==> cut == {})
    ensures fresh(t) && Reports(t, packages, id, cut) && t.remaining == 0
  {
    hide CompareVersions, Lists, SizeSum, CutKeys, Targets, StoredAmong, KeptIn, StoredBytes;
    ReportFacts(out, packages, id, cut);
    t := new TrimReport();
    t.Add(targets);
    t.removed := VersionsOf(targets);
  }

  lemma ReportFacts(out: seq<Record>, packages: Packages, id: string, cut: set<string>)
    requires Lists(out, packages, id) && forall k | k in packages :: packages[k].key == k
    requires cut <= KeptIn(out)
    ensures var targets, keys := Targets(out, cut), CutKeys(packages, id, cut);
      && |targets| == |keys| && VersionsIn(targets) == cut
      && StoredBytes(targets) == SizeSum(packages, StoredAmong(packages, keys))
  {
    hide CompareVersions, Lists, SizeSum, CutKeys, Targets, StoredAmong, DifferentKeys;
    ListingFinds(out, packages, id);
    TargetsAreDistinct(out, cut);
    KeptInListing(out, packages, id);
    TargetsAreCutKeys(out, packages, id, cut);
    DistinctKeysCount(Targets(out, cut));
    CutVersionsHaveKeys(packages, id, cut);
    assert VersionsIn(Targets(out, cut)) == VersionsOfKeys(KeysOf(Targets(out, cut)));
    StoredBytesAreSizes(packages, Targets(out, cut));
  }

  // Deletion by version

  datatype DeleteAnswer = NotFound | Answered(versions: seq<string>, packages: nat, bytes: nat, remaining: nat)

  /** The packages of an extension that a deletion through a version names; None names every version. */
  function Named(packages: Packages, id: string, through: Option<string>): set<Key> {
    set k | k in packages && k.id == id && !packages[k].status.Deleted?
            && (through.None? || CompareVersions(k.version, through.value) <= 0)
  }

  /** Afterwards the extension has exactly the versions it had that are newer than the one named. */
  lemma DeletesThrough(packages: Packages, id: string, through: Option<string>)
    ensures KeptVersions(MarkedDeleted(packages, Named(packages, id, through)), id) ==
            set v | v in KeptVersions(packages, id) && through.Some? && CompareVersions(v, through.value) > 0
    ensures forall k :: k in Named(packages, id, through) <==>
              k in packages && k.id == id && packages[k].status != Deleted
              && (through.None? || !(CompareVersions(k.version, through.value) > 0))
  {
    hide CompareVersions;
    var after := MarkedDeleted(packages, Named(packages, id, through));
    forall k | k in packages && k.id == id
      ensures after[k].status.Deleted? <==>
          packages[k].status.Deleted? || through.None? || CompareVersions(k.version, through.value) <= 0
    {
    }
    forall v | v in KeptVersions(packages, id) && through.Some? && CompareVersions(v, through.value) > 0
      ensures v in KeptVersions(after, id)
    {
      var k :| k in packages && k.id == id && !packages[k].status.Deleted? && k.version == v;
      assert !after[k].status.Deleted?;
    }
  }

  predicate IsNamed(p: Record, through: Option<string>) {
    p.status != Deleted && (through.None? || CompareVersions(p.key.version, through.value) <= 0)
  }

  /** Picks the packages a deletion names, with the bytes of the stored ones among them. */
  method Select(packages: seq<Record>, through: Option<string>) returns (targets: seq<Record>, bytes: nat)
    requires DifferentKeys(packages)
    ensures DifferentKeys(targets)
    ensures forall p :: p in targets <==>
              p in packages && IsNamed(p, through)
    ensures bytes == StoredBytes(targets)
  {
    hide IsNamed;
    targets, bytes := [], 0;
    for i := 0 to |packages|
      invariant DifferentKeys(targets)
      invariant forall p :: p in targets <==>
                  p in packages[..i] && IsNamed(p, through)
      invariant bytes == StoredBytes(targets)
    {
      var p := packages[i];
      assert packages[..i + 1] == packages[..i] + [p];
      if IsNamed(p, through) {
        assert forall q | q in targets :: q.key != p.key;
        assert (targets + [p])[..|targets|] == targets;
        targets := targets + [p];
        if p.status == Stored {
          bytes := bytes + p.digest.size;
        }
      }
    }
    assert packages[..|packages|] == packages;
  }

  lemma SelectedAreNamed(out: seq<Record>, packages: Packages, id: string, through: Option<string>,
                         targets: seq<Record>)
    requires Lists(out, packages, id) && forall k | k in packages :: packages[k].key == k
    requires forall p :: p in targets <==>
               p in out && IsNamed(p, through)
    ensures KeysOf(targets) == Named(packages, id, through)
    ensures forall p | p in targets :: p.key in packages && packages[p.key] == p
    ensures VersionsIn(targets) == VersionsOfKeys(Named(packages, id, through))
  {
    hide CompareVersions;
    forall k | k in Named(packages, id, through) ensures k in KeysOf(targets) {
      assert packages[k] in targets;
    }
    assert VersionsIn(targets) == VersionsOfKeys(KeysOf(targets));
  }

  /** What a deletion by version answers, and the state e it leaves. */
  ghost predicate AnswersDelete(d: Durable, id: string, through: Option<string>, dryRun: bool, stuck: set<string>,
                                forgets: bool, answer: DeleteAnswer, e: Durable) {
    var keys := Named(d.packages, id, through);
    && (answer.NotFound? <==> forall k | k in d.packages :: k.id != id)
    && (answer.Answered? ==>
      && Elements(answer.versions) == VersionsOfKeys(keys) && Distinct(answer.versions) && OldestFirst(answer.versions)
      && answer.packages == |keys|
      && answer.bytes == SizeSum(d.packages, StoredAmong(d.packages, keys))
      && answer.remaining == (if dryRun then 0 else |Stuck(NamesOf(d, keys), d.disk, stuck)|))
    && e == (if dryRun || keys == {} then d else Removed(d, keys, stuck, forgets))
  }

  /** Deletes an extension's versions up to a given one, or all. A dry run changes nothing and reports the same. */
  method DeleteVersions(db: Store, id: string, through: Option<string>, dryRun: bool, stuck: set<string>, forgets: bool)
    returns (answer: DeleteAnswer)
    requires db.Valid()
    modifies db
    ensures db.Valid() && old(db.trail) <= db.trail
    ensures AnswersDelete(old(db.State()), id, through, dryRun, stuck, forgets, answer, db.State())
    ensures AllOnTheWay(old(db.State()), Named(old(db.packages), id, through), db.trail, |old(db.trail)|)
    ensures dryRun || Named(old(db.packages), id, through) == {} ==> db.trail == old(db.trail)
  {
    hide IsRun, CompareVersions, OnTheWay, Removed, Lists, CacheAgrees, SizeSum, Named, Stuck, NamesOf;
    StuckNone(db.State(), stuck);
    ghost var d := db.State();
    var packages := db.List(id);
    ListingFinds(packages, d.packages, id);
    if |packages| == 0 {
      return NotFound;
    }
    var targets, bytes := Select(packages, through);
    SelectedAreNamed(packages, d.packages, id, through, targets);
    StoredBytesAreSizes(d.packages, targets);
    DistinctKeysCount(targets);
    var versions := VersionsOf(targets);
    answer := Answered(versions, |targets|, bytes, 0);
    if dryRun || |targets| == 0 {
      return;
    }
    assert targets[0].key in KeysOf(targets);
    var remaining := Remove(db, targets, stuck, forgets);
    answer := answer.(remaining := remaining);
  }

  lemma StuckNone(d: Durable, stuck: set<string>)
    ensures |Stuck(NamesOf(d, {}), d.disk, stuck)| == 0
  {
    assert NamesOf(d, {}) == {};
  }

  lemma ListingFinds(out: seq<Record>, packages: Packages, id: string)
    requires Lists(out, packages, id)
    ensures DifferentKeys(out)
    ensures |out| == 0 <==> forall k | k in packages :: k.id != id
    ensures |out| == 0 ==> forall through :: Named(packages, id, through) == {}
  {
    if |out| > 0 {
      assert out[0] in out;
    }
  }
}
