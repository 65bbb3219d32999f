/** The sync client: which versions it wants, what becomes of every artifact, and how that meets the server's limit. */
module Sync {
  import opened Versions
  import opened Inventory
  import opened Limits
  import opened Retention

  /** One package of the marketplace. */
  datatype Artifact = Artifact(key: Key, prerelease: bool)

  /** What the manager answers about a key. */
  datatype Held = Held(status: Status, prerelease: bool)

  datatype Outcome = Done | RefusedByLimit | Failing

  datatype Lookup = LookupFailed | Answered(stored: map<Key, Held>, keep: nat)

  /** One extension of the list, with what happens when it is synchronized. */
  datatype Extension =
    | Cancelled
    | Undiscovered
    | Found(artifacts: seq<Artifact>, lookup: Lookup, outcomes: map<Artifact, Outcome>)

  function VersionsOffered(artifacts: seq<Artifact>): set<string> {
    set a | a in artifacts :: a.key.version
  }

  // The wanted versions

  /** The versions a limit keeps, picked from those the marketplace offers; 0 keeps all. */
  method Newest(artifacts: seq<Artifact>, keep: int) returns (wanted: set<string>)
    ensures var offered := set a | a in artifacts :: a.key.version;
      wanted <= offered && IsCut(offered, keep, offered - wanted)
  {
    hide CompareVersions, IsCut;
    var offered := VersionsOffered(artifacts);
    var versions: seq<string> := [];
    for i := 0 to |artifacts|
      invariant Distinct(versions) && Elements(versions) == VersionsOffered(artifacts[..i])
    {
      var v := artifacts[i].key.version;
      assert artifacts[..i + 1] == artifacts[..i] + [artifacts[i]];
      assert VersionsOffered(artifacts[..i + 1]) == VersionsOffered(artifacts[..i]) + {v};
      assert v in versions <==> v in Elements(versions);
      if v !in versions {
        assert Elements(versions + [v]) == Elements(versions) + {v};
        versions := versions + [v];
      }
    }
    assert artifacts[..|artifacts|] == artifacts;
    // The library sort with its arguments swapped.
    var ascending := SortVersions(versions);
    versions := Reverse(ascending);
    ReversedDescends(ascending, versions);
    HeadIsKept(versions, keep);
    if keep > 0 && |versions| > keep {
      versions := versions[..keep];
    }
    wanted := set v | v in versions;
  }

  lemma ReversedDescends(ascending: seq<string>, versions: seq<string>)
    requires Distinct(ascending) && OldestFirst(ascending)
    requires |versions| == |ascending| && forall i | 0 <= i < |ascending| ::
        versions[i] == ascending[|ascending| - 1 - i]
    ensures Distinct(versions) && NewestFirst(versions) && Elements(versions) == Elements(ascending)
  {
    hide CompareVersions;
    assert forall i | 0 <= i < |ascending| :: ascending[i] == versions[|ascending| - 1 - i];
  }

  /** The first versions of a newest-first list are what a limit keeps. */
  lemma HeadIsKept(versions: seq<string>, keep: int)
    requires Distinct(versions) && NewestFirst(versions)
    ensures var all := Elements(versions);
      var kept := Elements(if keep > 0 && |versions| > keep then versions[..keep] else versions);
      kept <= all && IsCut(all, keep, all - kept)
  {
    hide CompareVersions, IsCut;
    var all := Elements(versions);
    DistinctSize(versions);
    if keep > 0 && |versions| > keep {
      TailIsCut(versions, keep);
      DistinctSplits(versions, keep);
      assert all - Elements(versions[..keep]) == Elements(versions[keep..]);
    } else {
      NothingCut(all, keep);
      assert all - all == {};
    }
  }

  // What becomes of each artifact

  datatype Fate = Skip | Beyond | Queue

  function FateOf(a: Artifact, stored: map<Key, Held>, wanted: set<string>): Fate {
    if a.key in stored && stored[a.key] == Held(Stored, a.prerelease) then Skip
    else if a.key.version !in wanted then Beyond
    else Queue
  }

  function WithFate(artifacts: seq<Artifact>, stored: map<Key, Held>, wanted: set<string>,
                    fate: Fate): (r: seq<Artifact>)
    ensures forall a :: a in r <==> a in artifacts && FateOf(a, stored, wanted) == fate
  {
    if |artifacts| == 0 then []
    else
      var front, a := WithFate(artifacts[..|artifacts| - 1], stored, wanted, fate), artifacts[|artifacts| - 1];
      assert artifacts == artifacts[..|artifacts| - 1] + [a];
      if FateOf(a, stored, wanted) == fate then front + [a] else front
  }

  /** Every artifact has one fate. */
  lemma {:induction false} FatesCover(artifacts: seq<Artifact>, stored: map<Key, Held>, wanted: set<string>)
    ensures |WithFate(artifacts, stored, wanted, Skip)| + |WithFate(artifacts, stored, wanted, Beyond)|
            + |WithFate(artifacts, stored, wanted, Queue)| == |artifacts|
  {
    if |artifacts| > 0 {
      FatesCover(artifacts[..|artifacts| - 1], stored, wanted);
    }
  }

  /** The positions of the elements that satisfy p. */
  function Where<T(!new)>(s: seq<T>, p: T -> bool): set<int> {
    set i | 0 <= i < |s| && p(s[i])
  }

  lemma WhereOneMore<T(!new)>(s: seq<T>, p: T -> bool)
    requires |s| > 0
    ensures var n := |s| - 1; |Where(s, p)| == |Where(s[..n], p)| + if p(s[n]) then 1 else 0
  {
    var n := |s| - 1;
    var before := Where(s[..n], p);
    assert n !in before;
    assert Where(s, p) == before + (if p(s[n]) then {n} else {});
  }

  /** The positions of the artifacts with one fate. */
  function FatedAt(artifacts: seq<Artifact>, stored: map<Key, Held>, wanted: set<string>, fate: Fate): set<int> {
    Where(artifacts, a => FateOf(a, stored, wanted) == fate)
  }

  lemma {:induction false} FateCount(artifacts: seq<Artifact>, stored: map<Key, Held>, wanted: set<string>, fate: Fate)
    ensures |FatedAt(artifacts, stored, wanted, fate)| == |WithFate(artifacts, stored, wanted, fate)|
  {
    hide FateOf;
    if |artifacts| > 0 {
      FateCount(artifacts[..|artifacts| - 1], stored, wanted, fate);
      WhereOneMore(artifacts, a => FateOf(a, stored, wanted) == fate);
    }
  }

  /**
   What is planned, by the positions of the artifacts: skipped are those held as stored with the same prerelease flag,
   beyond the limit the others not wanted, and the rest is queued.
   */
  ghost predicate Plans(artifacts: seq<Artifact>, held: map<Key, Held>, wanted: set<string>, queue: seq<Artifact>,
                        skipped: int, beyondLimit: int) {
    var present := set i | 0 <= i < |artifacts| && artifacts[i].key in held
                           && held[artifacts[i].key].status == Stored
                           && held[artifacts[i].key].prerelease == artifacts[i].prerelease;
    && skipped == |present|
    && beyondLimit == |set i | 0 <= i < |artifacts| && i !in present && artifacts[i].key.version !in wanted|
    && forall a :: a in queue <==>
         exists i | 0 <= i < |artifacts| :: i !in present && artifacts[i].key.version in wanted && artifacts[i] == a
  }

  lemma FatesMean(artifacts: seq<Artifact>, held: map<Key, Held>, wanted: set<string>)
    ensures Plans(artifacts, held, wanted, WithFate(artifacts, held, wanted, Queue),
                |WithFate(artifacts, held, wanted, Skip)|, |WithFate(artifacts, held, wanted, Beyond)|)
  {
    hide WithFate;
    FateCount(artifacts, held, wanted, Skip);
    FateCount(artifacts, held, wanted, Beyond);
    var present := set i | 0 <= i < |artifacts| && artifacts[i].key in held
                           && held[artifacts[i].key].status == Stored
                           && held[artifacts[i].key].prerelease == artifacts[i].prerelease;
    assert FatedAt(artifacts, held, wanted, Skip) == present;
    assert FatedAt(artifacts, held, wanted, Beyond) ==
        set i | 0 <= i < |artifacts| && i !in present && artifacts[i].key.version !in wanted;
    forall a ensures a in WithFate(artifacts, held, wanted, Queue) <==>
        exists i | 0 <= i < |artifacts| :: i !in present && artifacts[i].key.version in wanted && artifacts[i] == a
    {
      if a in artifacts && FateOf(a, held, wanted) == Queue {
        var i :| 0 <= i < |artifacts| && artifacts[i] == a;
        assert i !in present;
      }
    }
  }

  function OutcomeOf(outcomes: map<Artifact, Outcome>, a: Artifact): Outcome {
    if a in outcomes then outcomes[a] else Failing
  }

  /** The positions of a queue, among some, whose transfer ends this way. */
  function Ending(queue: seq<Artifact>, outcomes: map<Artifact, Outcome>, outcome: Outcome, among: set<nat>): set<nat> {
    set i | i in among && i < |queue| && OutcomeOf(outcomes, queue[i]) == outcome
  }

  function Positions(n: nat): (s: set<nat>)
    ensures |s| == n && forall i: nat :: i in s <==> i < n
  {
    if n == 0 then {} else Positions(n - 1) + {n - 1}
  }

  lemma EndingOneMore(queue: seq<Artifact>, outcomes: map<Artifact, Outcome>, outcome: Outcome, among: set<nat>, i: nat)
    requires i < |queue| && i !in among
    ensures |Ending(queue, outcomes, outcome, among + {i})| ==
            |Ending(queue, outcomes, outcome, among)| + (if OutcomeOf(outcomes, queue[i]) == outcome then 1 else 0)
  {
    if OutcomeOf(outcomes, queue[i]) == outcome {
      assert Ending(queue, outcomes, outcome, among + {i}) == Ending(queue, outcomes, outcome, among) + {i};
    } else {
      assert Ending(queue, outcomes, outcome, among + {i}) == Ending(queue, outcomes, outcome, among);
    }
  }

  /** The counters, started at s0, b0 and f0, tell how the transfers of ended went. */
  ghost predicate Counts(queue: seq<Artifact>, outcomes: map<Artifact, Outcome>, ended: set<nat>,
                         s0: nat, b0: nat, f0: nat, s: nat, b: nat, f: nat) {
    && s == s0 + |Ending(queue, outcomes, Done, ended)|
    && b == b0 + |Ending(queue, outcomes, RefusedByLimit, ended)|
    && f == f0 + |Ending(queue, outcomes, Failing, ended)|
  }

  /** The first next positions are handed out: under way, or ended. */
  ghost predicate HandedOut(active: set<nat>, ended: set<nat>, next: nat) {
    active !! ended && active + ended == Positions(next)
  }

  lemma NothingEnded(queue: seq<Artifact>, outcomes: map<Artifact, Outcome>, s: nat, b: nat, f: nat)
    ensures Counts(queue, outcomes, {}, s, b, f, s, b, f) && HandedOut({}, {}, 0)
  {
  }

  lemma NextPosition(active: set<nat>, ended: set<nat>, next: nat)
    requires HandedOut(active, ended, next)
    ensures HandedOut(active + {next}, ended, next + 1) && |active + {next}| == |active| + 1
  {
  }

  lemma EndedOneMore(queue: seq<Artifact>, outcomes: map<Artifact, Outcome>, active: set<nat>, ended: set<nat>,
                     next: nat, i: nat, s0: nat, b0: nat, f0: nat, s: nat, b: nat, f: nat)
    requires Counts(queue, outcomes, ended, s0, b0, f0, s, b, f)
    requires next <= |queue| && HandedOut(active, ended, next) && i in active
    ensures i < |queue| && HandedOut(active - {i}, ended + {i}, next) && |active - {i}| == |active| - 1
    ensures var o := OutcomeOf(outcomes, queue[i]);
      Counts(queue, outcomes, ended + {i}, s0, b0, f0, s + (if o.Done? then 1 else 0),
             b + (if o.RefusedByLimit? then 1 else 0), f + (if o.Failing? then 1 else 0))
  {
    hide Ending;
    assert i in Positions(next);
    EndingOneMore(queue, outcomes, Done, ended, i);
    EndingOneMore(queue, outcomes, RefusedByLimit, ended, i);
    EndingOneMore(queue, outcomes, Failing, ended, i);
  }

  lemma AllCounted(queue: seq<Artifact>, outcomes: map<Artifact, Outcome>, active: set<nat>, ended: set<nat>,
                   s0: nat, b0: nat, f0: nat, s: nat, b: nat, f: nat)
    requires HandedOut(active, ended, |queue|) && active == {}
    requires Counts(queue, outcomes, ended, s0, b0, f0, s, b, f)
    ensures var all := Positions(|queue|);
      && s == s0 + |Ending(queue, outcomes, Done, all)|
      && b == b0 + |Ending(queue, outcomes, RefusedByLimit, all)|
      && f == f0 + |Ending(queue, outcomes, Failing, all)|
  {
    assert ended == Positions(|queue|);
  }

  /** Every transfer ends in one way. */
  lemma EndingsCover(queue: seq<Artifact>, outcomes: map<Artifact, Outcome>)
    ensures var all := Positions(|queue|);
      |Ending(queue, outcomes, Done, all)| + |Ending(queue, outcomes, RefusedByLimit, all)|
          + |Ending(queue, outcomes, Failing, all)| == |queue|
  {
    var all := Positions(|queue|);
    hide Ending, Positions;
    var a, b, c := Ending(queue, outcomes, Done, all), Ending(queue, outcomes, RefusedByLimit, all),
        Ending(queue, outcomes, Failing, all);
    EndingsPart(queue, outcomes);
    assert |a + b| == |a| + |b|;
    assert |a + b + c| == |a + b| + |c|;
  }

  lemma OneEnding(queue: seq<Artifact>, outcomes: map<Artifact, Outcome>, i: nat)
    ensures i in Positions(|queue|) <==> i < |queue|
    ensures forall o :: i in Ending(queue, outcomes, o, Positions(|queue|)) <==>
        i < |queue| && OutcomeOf(outcomes, queue[i]) == o
    ensures i < |queue| ==>
      var o := OutcomeOf(outcomes, queue[i]);
      o == Done || o == RefusedByLimit || o == Failing
  {
    hide OutcomeOf;
    if i < |queue| {
      match OutcomeOf(outcomes, queue[i]) {
        case Done =>
        case RefusedByLimit =>
        case Failing =>
      }
    }
  }

  lemma EndingsPart(queue: seq<Artifact>, outcomes: map<Artifact, Outcome>)
    ensures var all := Positions(|queue|);
      var a, b, c := Ending(queue, outcomes, Done, all), Ending(queue, outcomes, RefusedByLimit, all),
          Ending(queue, outcomes, Failing, all);
      a !! b && a + b !! c && all == a + b + c
  {
    hide OutcomeOf, Ending, Positions;
    var all := Positions(|queue|);
    var a, b, c := Ending(queue, outcomes, Done, all), Ending(queue, outcomes, RefusedByLimit, all),
        Ending(queue, outcomes, Failing, all);
    forall i: nat
      ensures i in a ==> i !in b && i !in c && i in all
      ensures i in b ==> i !in c && i in all
      ensures i in c ==> i in all
      ensures i in all ==> i in a || i in b || i in c
    {
      OneEnding(queue, outcomes, i);
    }
    assert a !! b && a + b !! c && all == a + b + c;
  }

  /** The artifacts of the extensions whose discovery succeeds. */
  function ArtifactsFound(extensions: seq<Extension>): nat {
    if |extensions| == 0 then 0
    else
      var last := extensions[|extensions| - 1];
      ArtifactsFound(extensions[..|extensions| - 1]) + (if last.Found? then |last.artifacts| else 0)
  }

  /** The positions of the artifacts that are sent and end this way. */
  function SentEnding(artifacts: seq<Artifact>, held: map<Key, Held>, wanted: set<string>,
                      outcomes: map<Artifact, Outcome>, outcome: Outcome): set<int> {
    Where(artifacts, a => FateOf(a, held, wanted) == Queue && OutcomeOf(outcomes, a) == outcome)
  }

  lemma EndingGrows(queue: seq<Artifact>, a: Artifact, outcomes: map<Artifact, Outcome>, outcome: Outcome)
    ensures |Ending(queue + [a], outcomes, outcome, Positions(|queue| + 1))| ==
            |Ending(queue, outcomes, outcome, Positions(|queue|))|
            + (if OutcomeOf(outcomes, a) == outcome then 1 else 0)
  {
    hide OutcomeOf;
    EndingOneMore(queue + [a], outcomes, outcome, Positions(|queue|), |queue|);
    assert Ending(queue + [a], outcomes, outcome, Positions(|queue|)) ==
        Ending(queue, outcomes, outcome, Positions(|queue|));
  }

  lemma {:induction false} SentCount(artifacts: seq<Artifact>, held: map<Key, Held>, wanted: set<string>,
                                     outcomes: map<Artifact, Outcome>, outcome: Outcome)
    ensures var queue := WithFate(artifacts, held, wanted, Queue);
      |Ending(queue, outcomes, outcome, Positions(|queue|))| ==
      |SentEnding(artifacts, held, wanted, outcomes, outcome)|
  {
    hide WithFate, SentEnding, Ending, Positions;
    if |artifacts| > 0 {
      var n, a := |artifacts| - 1, artifacts[|artifacts| - 1];
      SentCount(artifacts[..n], held, wanted, outcomes, outcome);
      QueueOneMore(artifacts, held, wanted);
      SentOneMore(artifacts, held, wanted, outcomes, outcome);
      var front := WithFate(artifacts[..n], held, wanted, Queue);
      EndingGrows(front, a, outcomes, outcome);
      assert FateOf(a, held, wanted) != Queue ==> front + [] == front;
    } else {
      NoneSent(artifacts, held, wanted, outcomes, outcome);
      NoneEnding(outcomes, outcome);
    }
  }

  lemma NoneSent(artifacts: seq<Artifact>, held: map<Key, Held>, wanted: set<string>, outcomes: map<Artifact, Outcome>,
                 outcome: Outcome)
    requires artifacts == []
    ensures SentEnding(artifacts, held, wanted, outcomes, outcome) == {}
    ensures WithFate(artifacts, held, wanted, Queue) == []
  {
  }

  lemma QueueOneMore(artifacts: seq<Artifact>, held: map<Key, Held>, wanted: set<string>)
    requires |artifacts| > 0
    ensures var front, a := artifacts[..|artifacts| - 1], artifacts[|artifacts| - 1];
      WithFate(artifacts, held, wanted, Queue) ==
      WithFate(front, held, wanted, Queue) + (if FateOf(a, held, wanted) == Queue then [a] else [])
  {
    hide FateOf;
  }

  lemma SentOneMore(artifacts: seq<Artifact>, held: map<Key, Held>, wanted: set<string>,
                    outcomes: map<Artifact, Outcome>, outcome: Outcome)
    requires |artifacts| > 0
    ensures var front, a := artifacts[..|artifacts| - 1], artifacts[|artifacts| - 1];
      |SentEnding(artifacts, held, wanted, outcomes, outcome)| ==
      |SentEnding(front, held, wanted, outcomes, outcome)|
      + (if FateOf(a, held, wanted) == Queue && OutcomeOf(outcomes, a) == outcome then 1 else 0)
  {
    hide FateOf, OutcomeOf, Where;
    WhereOneMore(artifacts, a => FateOf(a, held, wanted) == Queue && OutcomeOf(outcomes, a) == outcome);
  }

  lemma NoneEnding(outcomes: map<Artifact, Outcome>, outcome: Outcome)
    ensures Ending([], outcomes, outcome, Positions(0)) == {}
  {
  }

  /**
   The counts of one extension, by the positions of its artifacts: skipped are those held as stored with the same
   prerelease flag, beyond the limit the others not wanted, and what is sent counts by how it ends.
   */
  ghost predicate Accounts(artifacts: seq<Artifact>, held: map<Key, Held>, wanted: set<string>,
                           outcomes: map<Artifact, Outcome>, skipped: int, stored: int, beyondLimit: int, failed: int) {
    var present := set i | 0 <= i < |artifacts| && artifacts[i].key in held
                           && held[artifacts[i].key].status == Stored
                           && held[artifacts[i].key].prerelease == artifacts[i].prerelease;
    var sent := set i | 0 <= i < |artifacts| && i !in present && artifacts[i].key.version in wanted;
    && skipped == |present|
    && stored == |set i | i in sent && artifacts[i] in outcomes && outcomes[artifacts[i]] == Done|
    && beyondLimit == |set i | 0 <= i < |artifacts| && i !in present && artifacts[i].key.version !in wanted|
                      + |set i | i in sent && artifacts[i] in outcomes && outcomes[artifacts[i]] == RefusedByLimit|
    && failed == |set i | i in sent && (artifacts[i] in outcomes ==> outcomes[artifacts[i]] == Failing)|
  }

  /** What is transferred, and how it ends, in terms of what is held and wanted. */
  lemma TransfersMean(artifacts: seq<Artifact>, held: map<Key, Held>, wanted: set<string>,
                      outcomes: map<Artifact, Outcome>)
    ensures var queue := WithFate(artifacts, held, wanted, Queue);
      Accounts(artifacts, held, wanted, outcomes, |WithFate(artifacts, held, wanted, Skip)|,
          |Ending(queue, outcomes, Done, Positions(|queue|))|,
          |WithFate(artifacts, held, wanted, Beyond)|
          + |Ending(queue, outcomes, RefusedByLimit, Positions(|queue|))|,
          |Ending(queue, outcomes, Failing, Positions(|queue|))|)
  {
    hide WithFate, Ending, Positions, FateOf, SentEnding;
    FatesMean(artifacts, held, wanted);
    SentCount(artifacts, held, wanted, outcomes, Done);
    SentCount(artifacts, held, wanted, outcomes, RefusedByLimit);
    SentCount(artifacts, held, wanted, outcomes, Failing);
    SentMeans(artifacts, held, wanted, outcomes, Done);
    SentMeans(artifacts, held, wanted, outcomes, RefusedByLimit);
    SentMeans(artifacts, held, wanted, outcomes, Failing);
    var present := set i | 0 <= i < |artifacts| && artifacts[i].key in held
                           && held[artifacts[i].key].status == Stored
                           && held[artifacts[i].key].prerelease == artifacts[i].prerelease;
    var sent := set i | 0 <= i < |artifacts| && i !in present && artifacts[i].key.version in wanted;
    assert SentEnding(artifacts, held, wanted, outcomes, Done) ==
        set i | i in sent && artifacts[i] in outcomes && outcomes[artifacts[i]] == Done;
    assert SentEnding(artifacts, held, wanted, outcomes, RefusedByLimit) ==
        set i | i in sent && artifacts[i] in outcomes && outcomes[artifacts[i]] == RefusedByLimit;
    assert SentEnding(artifacts, held, wanted, outcomes, Failing) ==
        set i | i in sent && (artifacts[i] in outcomes ==> outcomes[artifacts[i]] == Failing);
  }

  lemma SentMeans(artifacts: seq<Artifact>, held: map<Key, Held>, wanted: set<string>,
                  outcomes: map<Artifact, Outcome>, outcome: Outcome)
    ensures forall i :: i in SentEnding(artifacts, held, wanted, outcomes, outcome) <==>
              && 0 <= i < |artifacts|
              && !(artifacts[i].key in held && held[artifacts[i].key].status == Stored
                   && held[artifacts[i].key].prerelease == artifacts[i].prerelease)
              && artifacts[i].key.version in wanted
              && (if artifacts[i] in outcomes then outcomes[artifacts[i]] == outcome else outcome == Failing)
  {
  }

  lemma NoneFound()
    ensures ArtifactsFound([]) == 0
  {
  }

  lemma FoundOneMore(extensions: seq<Extension>, i: nat)
    requires i < |extensions|
    ensures ArtifactsFound(extensions[..i + 1]) ==
            ArtifactsFound(extensions[..i]) + (if extensions[i].Found? then |extensions[i].artifacts| else 0)
  {
    assert extensions[..i + 1][..i] == extensions[..i];
  }

  class Report {
    var discovered: nat
    var stored: nat
    var skipped: nat
    var beyondLimit: nat
    var failed: nat

    constructor ()
      ensures discovered == stored == skipped == beyondLimit == failed == 0
    {
      discovered, stored, skipped, beyondLimit, failed := 0, 0, 0, 0, 0;
    }

    function Total(): nat
      reads this
    {
      stored + skipped + beyondLimit + failed
    }

    /** Sorts artifacts into those present, those beyond the limit, and those to transfer. */
    method Plan(artifacts: seq<Artifact>, held: map<Key, Held>, wanted: set<string>) returns (queue: seq<Artifact>)
      modifies this`skipped, this`beyondLimit
      ensures queue == WithFate(artifacts, held, wanted, Queue)
      ensures skipped == old(skipped) + |WithFate(artifacts, held, wanted, Skip)|
      ensures beyondLimit == old(beyondLimit) + |WithFate(artifacts, held, wanted, Beyond)|
      ensures Plans(artifacts, held, wanted, queue, skipped - old(skipped), beyondLimit - old(beyondLimit))
    {
      hide Plans;
      FatesMean(artifacts, held, wanted);
      queue := [];
      for i := 0 to |artifacts|
        invariant queue == WithFate(artifacts[..i], held, wanted, Queue)
        invariant skipped == old(skipped) + |WithFate(artifacts[..i], held, wanted, Skip)|
        invariant beyondLimit == old(beyondLimit) + |WithFate(artifacts[..i], held, wanted, Beyond)|
      {
        var a := artifacts[i];
        assert artifacts[..i + 1][..i] == artifacts[..i];
        if a.key in held && held[a.key].status == Stored && held[a.key].prerelease == a.prerelease {
          skipped := skipped + 1;
        } else if a.key.version !in wanted {
          beyondLimit := beyondLimit + 1;
        } else {
          queue := queue + [a];
        }
      }
      assert artifacts[..|artifacts|] == artifacts;
    }

    /** What a worker does, under the mutex, when its transfer has ended. */
    method Count(outcome: Outcome)
      modifies this`stored, this`beyondLimit, this`failed
      ensures stored == old(stored) + (if outcome.Done? then 1 else 0)
      ensures beyondLimit == old(beyondLimit) + (if outcome.RefusedByLimit? then 1 else 0)
      ensures failed == old(failed) + (if outcome.Failing? then 1 else 0)
    {
      match outcome {
        case Done => stored := stored + 1;
        case RefusedByLimit => beyondLimit := beyondLimit + 1;
        case Failing => failed := failed + 1;
      }
    }

    /** The workers: artifacts are handed out in order, and any transfer under way may be the next to end. */
    method TransferAll(queue: seq<Artifact>, outcomes: map<Artifact, Outcome>, concurrency: nat)
      requires concurrency > 0
      modifies this`stored, this`beyondLimit, this`failed
      ensures var all := Positions(|queue|);
        && stored == old(stored) + |Ending(queue, outcomes, Done, all)|
        && beyondLimit == old(beyondLimit) + |Ending(queue, outcomes, RefusedByLimit, all)|
        && failed == old(failed) + |Ending(queue, outcomes, Failing, all)|
    {
      hide Positions, Ending, Counts, HandedOut, OutcomeOf;
      var next: nat, active: set<nat> := 0, {};
      ghost var ended: set<nat>, s, b, f := {}, stored, beyondLimit, failed;
      NothingEnded(queue, outcomes, s, b, f);
      while next < |queue| || active != {}
        invariant next <= |queue| && |active| <= concurrency
        invariant HandedOut(active, ended, next)
        invariant Counts(queue, outcomes, ended, s, b, f, stored, beyondLimit, failed)
        decreases |queue| - next, |active|
      {
        var start := *;
        if next < |queue| && |active| < concurrency && (start || active == {}) {
          NextPosition(active, ended, next);
          active := active + {next};
          next := next + 1;
        } else {
          var i :| i in active;
          EndedOneMore(queue, outcomes, active, ended, next, i, s, b, f, stored, beyondLimit, failed);
          Count(OutcomeOf(outcomes, queue[i]));
          active := active - {i};
          ended := ended + {i};
        }
      }
      AllCounted(queue, outcomes, active, ended, s, b, f, stored, beyondLimit, failed);
    }

    /** One extension whose artifacts are known. */
    method Process(artifacts: seq<Artifact>, lookup: Lookup, outcomes: map<Artifact, Outcome>, concurrency: nat)
      returns (ghost wanted: set<string>)
      requires concurrency > 0
      modifies this`stored, this`skipped, this`beyondLimit, this`failed
      ensures Total() == old(Total()) + |artifacts|
      ensures lookup.LookupFailed? ==> failed == old(failed) + |artifacts|
      ensures lookup.Answered? ==>
        var offered := VersionsOffered(artifacts);
        var queue := WithFate(artifacts, lookup.stored, wanted, Queue);
        && wanted <= offered && IsCut(offered, lookup.keep, offered - wanted)
        && skipped == old(skipped) + |WithFate(artifacts, lookup.stored, wanted, Skip)|
        && stored == old(stored) + |Ending(queue, outcomes, Done, Positions(|queue|))|
        && beyondLimit == old(beyondLimit) + |WithFate(artifacts, lookup.stored, wanted, Beyond)|
                          + |Ending(queue, outcomes, RefusedByLimit, Positions(|queue|))|
        && failed == old(failed) + |Ending(queue, outcomes, Failing, Positions(|queue|))|
      ensures lookup.Answered? ==>
        Accounts(artifacts, lookup.stored, wanted, outcomes, skipped - old(skipped), stored - old(stored),
            beyondLimit - old(beyondLimit), failed - old(failed))
    {
      hide IsCut, Ending, Positions, WithFate, FateOf, Accounts;
      wanted := {};
      if lookup.LookupFailed? {
        failed := failed + |artifacts|;
        return;
      }
      var picked := Newest(artifacts, lookup.keep);
      wanted := picked;
      var queue := Plan(artifacts, lookup.stored, picked);
      FatesCover(artifacts, lookup.stored, wanted);
      TransferAll(queue, outcomes, concurrency);
      EndingsCover(queue, outcomes);
      TransfersMean(artifacts, lookup.stored, wanted, outcomes);
    }

    /** One extension whose discovery succeeded; a preview stops there. */
    method Discover(artifacts: seq<Artifact>, lookup: Lookup, outcomes: map<Artifact, Outcome>, discover: bool,
                    concurrency: nat)
      requires concurrency > 0
      modifies this
      ensures discovered == old(discovered) + |artifacts|
      ensures Total() == old(Total()) + if discover then 0 else |artifacts|
      ensures discover ==> failed == old(failed)
    {
      hide IsCut, Ending, Positions, WithFate, FateOf, Accounts;
      discovered := discovered + |artifacts|;
      if !discover {
        var _ := Process(artifacts, lookup, outcomes, concurrency);
      }
    }
  }

  /**
   A whole run, or with discover a preview of what the marketplace offers. It ends at extension n if that is cancelled,
   which counts as a failure, as does every extension before it that cannot be discovered.
   */
  method Run(extensions: seq<Extension>, discover: bool, concurrency: nat) returns (report: Report, ghost n: nat)
    requires concurrency > 0
    ensures fresh(report)
    ensures n <= |extensions| && (n < |extensions| ==> extensions[n].Cancelled?)
    ensures forall i | 0 <= i < n :: !extensions[i].Cancelled?
    ensures report.discovered == ArtifactsFound(extensions[..n])
    ensures var early := |set i | 0 <= i < n && extensions[i].Undiscovered?| + if n < |extensions| then 1 else 0;
      && (!discover ==> report.Total() == report.discovered + early)
      && (discover ==> report.Total() == report.failed == early)
      && (report.Total() == report.discovered + early <==> !discover || report.discovered == 0)
  {
    hide Accounts, WithFate, Ending, Positions, IsCut, ArtifactsFound, FateOf, AreUndiscovered;
    report := new Report();
    n := 0;
    NoneFound();
    ghost var undiscovered: set<int> := {};
    NoneUndiscovered(extensions);
    for i := 0 to |extensions|
      invariant fresh(report) && n == i && forall j | 0 <= j < i :: !extensions[j].Cancelled?
      invariant AreUndiscovered(extensions, i, undiscovered)
      invariant report.discovered == ArtifactsFound(extensions[..i])
      invariant !discover ==> report.Total() == report.discovered + |undiscovered|
      invariant discover ==> report.Total() == report.failed == |undiscovered|
    {
      FoundOneMore(extensions, i);
      UndiscoveredOneMore(extensions, i, undiscovered);
      match extensions[i] {
        case Cancelled =>
          report.failed := report.failed + 1;
          break;
        case Undiscovered =>
          report.failed := report.failed + 1;
          undiscovered := undiscovered + {i};
        case Found(artifacts, lookup, outcomes) =>
          report.Discover(artifacts, lookup, outcomes, discover, concurrency);
      }
      n := i + 1;
    }
    UndiscoveredMean(extensions, n, undiscovered);
  }

  ghost predicate AreUndiscovered(extensions: seq<Extension>, n: int, undiscovered: set<int>)
    requires 0 <= n <= |extensions|
  {
    undiscovered == set i | 0 <= i < n && extensions[i].Undiscovered?
  }

  lemma NoneUndiscovered(extensions: seq<Extension>)
    ensures AreUndiscovered(extensions, 0, {})
  {
  }

  lemma UndiscoveredOneMore(extensions: seq<Extension>, i: nat, undiscovered: set<int>)
    requires i < |extensions| && AreUndiscovered(extensions, i, undiscovered)
    ensures i !in undiscovered
    ensures AreUndiscovered(extensions, i + 1, undiscovered + if extensions[i].Undiscovered? then {i} else {})
  {
  }

  lemma UndiscoveredMean(extensions: seq<Extension>, n: nat, undiscovered: set<int>)
    requires n <= |extensions| && AreUndiscovered(extensions, n, undiscovered)
    ensures undiscovered == set i | 0 <= i < n && extensions[i].Undiscovered?
  {
  }

  // How the selection meets the server's limit

  /** What happens to an extension's kept versions on the server while a run is under way. */
  datatype Change =
    // an upload; if it is let in, a trim removes cut, or fails and removes nothing
    | Sent(version: string, cut: set<string>)
    | Deleted(gone: set<string>)                // a deletion or any other trim

  ghost predicate Changes(kept: set<string>, c: Change, keep: int, after: set<string>) {
    match c
    case Sent(version, cut) =>
      if IsOutside(kept, version, keep) then after == kept
      else (IsCut(kept + {version}, keep, cut) || cut == {}) && after == kept + {version} - cut
    case Deleted(gone) => after == kept - gone
  }

  /** kept[i] are the versions before changes[i], and kept[i + 1] those after it. */
  ghost predicate IsKeptRun(kept: seq<set<string>>, changes: seq<Change>, keep: int) {
    |kept| == |changes| + 1 && forall i | 0 <= i < |changes| :: Changes(kept[i], changes[i], keep, kept[i + 1])
  }

  /** The sync client sends only versions it wants. */
  ghost predicate SendsOnly(changes: seq<Change>, wanted: set<string>) {
    forall i | 0 <= i < |changes| && changes[i].Sent? :: changes[i].version in wanted
  }

  lemma {:induction false} KeptStaysOffered(kept: seq<set<string>>, changes: seq<Change>, keep: int,
                                            offered: set<string>, wanted: set<string>, i: nat)
    requires IsKeptRun(kept, changes, keep) && SendsOnly(changes, wanted) && wanted <= offered && kept[0] <= offered
        && i < |kept|
    ensures kept[i] <= offered
  {
    if i > 0 {
      KeptStaysOffered(kept, changes, keep, offered, wanted, i - 1);
      assert Changes(kept[i - 1], changes[i - 1], keep, kept[i]);
    }
  }

  lemma WantedIsInside(kept: set<string>, offered: set<string>, wanted: set<string>, keep: int, version: string)
    requires kept <= offered && wanted <= offered && IsCut(offered, keep, offered - wanted) && version in wanted
    ensures !IsOutside(kept, version, keep)
  {
    hide CompareVersions;
    if keep > 0 {
      assert offered - (offered - wanted) == wanted;
      forall v | v in Newer(kept, version) ensures v in wanted - {version} {
        CompareVersionsIsPreorder(v, v, v);
      }
      SubsetSize(Newer(kept, version), wanted - {version});
    }
  }

  /**
   No version the client picks is ever refused: in any order of uploads, with trims that succeed or fail and
   deletions in between, as long as the limit is unchanged and the server's versions are among those offered.
   */
  lemma NeverRefused(kept: seq<set<string>>, changes: seq<Change>, keep: int, offered: set<string>,
                     wanted: set<string>, i: nat)
    requires IsKeptRun(kept, changes, keep) && SendsOnly(changes, wanted) && kept[0] <= offered
    requires wanted <= offered && IsCut(offered, keep, offered - wanted)
    requires i < |changes| && changes[i].Sent?
    ensures !IsOutside(kept[i], changes[i].version, keep)
  {
    hide CompareVersions, IsCut;
    KeptStaysOffered(kept, changes, keep, offered, wanted, i);
    WantedIsInside(kept[i], offered, wanted, keep, changes[i].version);
  }

  /** Every change is an upload whose trim succeeds. */
  ghost predicate AllTrimmed(kept: seq<set<string>>, changes: seq<Change>, keep: int)
    requires |kept| == |changes| + 1
  {
    forall i | 0 <= i < |changes| :: changes[i].Sent? && IsCut(kept[i] + {changes[i].version}, keep, changes[i].cut)
  }

  /** Without ties, trimming versions among those offered never cuts a wanted one. */
  lemma CutSparesWanted(versions: set<string>, cut: set<string>, offered: set<string>, wanted: set<string>, keep: int)
    requires versions <= offered && wanted <= offered && IsCut(offered, keep, offered - wanted) && NoTies(offered)
    requires IsCut(versions, keep, cut)
    ensures cut !! wanted
  {
    hide CompareVersions;
    if c :| c in cut && c in wanted {
      var rest := versions - cut;
      assert versions == cut + rest;
      assert |versions| == |cut| + |rest|;
      assert offered - (offered - wanted) == wanted;
      forall v | v in rest ensures v in wanted - {c} {
        CompareVersionsIsPreorder(c, v, c);
      }
      SubsetSize(rest, wanted - {c});
    }
  }

  lemma {:induction false} WantedArrives(kept: seq<set<string>>, changes: seq<Change>, keep: int,
                                         offered: set<string>, wanted: set<string>, i: nat)
    requires IsKeptRun(kept, changes, keep) && SendsOnly(changes, wanted) && kept[0] <= offered
        && AllTrimmed(kept, changes, keep)
    requires wanted <= offered && IsCut(offered, keep, offered - wanted) && NoTies(offered) && i < |kept|
    ensures kept[0] * wanted <= kept[i]
    ensures forall j | 0 <= j < i :: changes[j].version in kept[i]
  {
    hide CompareVersions, IsCut;
    if i > 0 {
      WantedArrives(kept, changes, keep, offered, wanted, i - 1);
      KeptStaysOffered(kept, changes, keep, offered, wanted, i - 1);
      NeverRefused(kept, changes, keep, offered, wanted, i - 1);
      assert Changes(kept[i - 1], changes[i - 1], keep, kept[i]);
      var before, c := kept[i - 1], changes[i - 1];
      CutSparesWanted(before + {c.version}, c.cut, offered, wanted, keep);
      assert forall v | v in wanted && (v in before || v == c.version) :: v in kept[i];
    }
  }

  /** Trimmed or untouched, the server keeps no more than the limit. */
  lemma LimitHolds(kept: seq<set<string>>, changes: seq<Change>, keep: int, offered: set<string>, wanted: set<string>)
    requires IsKeptRun(kept, changes, keep) && SendsOnly(changes, wanted) && kept[0] <= offered
        && AllTrimmed(kept, changes, keep)
    requires wanted <= offered && IsCut(offered, keep, offered - wanted)
    requires keep > 0 && |kept[0]| <= keep
    ensures |kept[|changes|]| <= keep
  {
    hide CompareVersions;
    var n := |changes|;
    if n > 0 {
      NeverRefused(kept, changes, keep, offered, wanted, n - 1);
      assert Changes(kept[n - 1], changes[n - 1], keep, kept[n]);
    }
  }

  lemma SameSize(a: set<string>, b: set<string>)
    requires a <= b && |b| <= |a|
    ensures a == b
  {
    SubsetSize(a, b);
    assert b == a + (b - a);
    assert |b - a| == 0;
  }

  /**
   A run converges: without ties, if the server starts within its limit and every wanted version is there
   already or is sent, the kept versions end up exactly those the client wanted, in whatever order they were sent.
   */
  lemma SyncConverges(kept: seq<set<string>>, changes: seq<Change>, keep: int, offered: set<string>,
                      wanted: set<string>)
    requires IsKeptRun(kept, changes, keep) && SendsOnly(changes, wanted) && AllTrimmed(kept, changes, keep)
    requires kept[0] <= offered && (keep > 0 ==> |kept[0]| <= keep)
    requires wanted <= offered && IsCut(offered, keep, offered - wanted) && NoTies(offered)
    requires forall v | v in wanted :: v in kept[0] || exists i | 0 <= i < |changes| :: changes[i].version == v
    ensures kept[|changes|] == wanted
  {
    hide CompareVersions, NoTies;
    var end := kept[|changes|];
    KeptStaysOffered(kept, changes, keep, offered, wanted, |changes|);
    WantedArrives(kept, changes, keep, offered, wanted, |changes|);
    assert wanted <= end;
    assert offered - (offered - wanted) == wanted;
    if keep > 0 && |offered| > keep {
      LimitHolds(kept, changes, keep, offered, wanted);
      SameSize(wanted, end);
    } else {
      if keep > 0 {
        SameSize(wanted, offered);
      } else {
        assert offered - wanted == {};
        assert wanted == offered;
      }
    }
  }

  // A run of the planned queue

  /** The uploads of a queue, in the order the workers happen to send them. */
  ghost predicate SendsQueue(changes: seq<Change>, sent: seq<Artifact>, queue: seq<Artifact>) {
    && multiset(sent) == multiset(queue) && |changes| == |sent|
    && forall i | 0 <= i < |changes| :: changes[i].Sent? && changes[i].version == sent[i].key.version
  }

  /** What the manager answered as stored is kept. */
  ghost predicate AnswersTruly(artifacts: seq<Artifact>, held: map<Key, Held>, kept: set<string>) {
    forall a | a in artifacts && a.key in held && held[a.key].status == Stored :: a.key.version in kept
  }

  lemma SameMembers<T>(a: seq<T>, b: seq<T>)
    requires multiset(a) == multiset(b)
    ensures forall x :: x in a <==> x in b
  {
    forall x ensures x in a <==> x in b {
      assert x in a <==> x in multiset(a);
      assert x in b <==> x in multiset(b);
    }
  }

  /** The queue holds wanted versions only, and every wanted version is in it or stored already. */
  lemma QueueCoversWanted(artifacts: seq<Artifact>, held: map<Key, Held>, wanted: set<string>, kept: set<string>,
                          changes: seq<Change>, sent: seq<Artifact>)
    requires wanted <= VersionsOffered(artifacts) && AnswersTruly(artifacts, held, kept)
    requires SendsQueue(changes, sent, WithFate(artifacts, held, wanted, Queue))
    ensures SendsOnly(changes, wanted)
    ensures forall v | v in wanted :: v in kept || exists i | 0 <= i < |changes| :: changes[i].version == v
  {
    var queue := WithFate(artifacts, held, wanted, Queue);
    SameMembers(sent, queue);
    forall i | 0 <= i < |changes| ensures changes[i].version in wanted {
      assert sent[i] in queue;
    }
    forall v | v in wanted && v !in kept ensures exists i | 0 <= i < |changes| :: changes[i].version == v {
      var a :| a in artifacts && a.key.version == v;
      assert FateOf(a, held, wanted) == Queue;
      assert a in sent;
      var i :| 0 <= i < |sent| && sent[i] == a;
      assert changes[i].version == v;
    }
  }

  /** No upload of the planned queue is refused, whatever order it is sent in. */
  lemma PlannedNeverRefused(artifacts: seq<Artifact>, held: map<Key, Held>, keep: int, wanted: set<string>,
                            sent: seq<Artifact>, kept: seq<set<string>>, changes: seq<Change>, i: nat)
    requires var offered := VersionsOffered(artifacts);
      wanted <= offered && IsCut(offered, keep, offered - wanted) && |kept| > 0 && kept[0] <= offered
    requires SendsQueue(changes, sent, WithFate(artifacts, held, wanted, Queue)) && IsKeptRun(kept, changes, keep)
    requires i < |changes|
    ensures !IsOutside(kept[i], sent[i].key.version, keep)
  {
    hide IsCut, IsOutside, FateOf;
    SameMembers(sent, WithFate(artifacts, held, wanted, Queue));
    assert SendsOnly(changes, wanted) by {
      forall j | 0 <= j < |changes| ensures changes[j].version in wanted {
        assert sent[j] in WithFate(artifacts, held, wanted, Queue);
        QueuedIsWanted(sent[j], held, wanted);
      }
    }
    NeverRefused(kept, changes, keep, VersionsOffered(artifacts), wanted, i);
  }

  lemma QueuedIsWanted(a: Artifact, held: map<Key, Held>, wanted: set<string>)
    requires FateOf(a, held, wanted) == Queue
    ensures a.key.version in wanted
  {
  }

  /**
   A sync of one extension converges: whatever order its planned queue is sent in, if each upload ends in 201 with a
   successful trim, no two versions tie, the server starts within its limit with versions among those offered, and what
   it answered as stored is kept, the kept versions end up exactly those picked.
   */
  lemma PlannedSyncConverges(artifacts: seq<Artifact>, held: map<Key, Held>, keep: int, wanted: set<string>,
                             sent: seq<Artifact>, kept: seq<set<string>>, changes: seq<Change>)
    requires var offered := VersionsOffered(artifacts);
      && wanted <= offered && IsCut(offered, keep, offered - wanted) && NoTies(offered)
      && |kept| > 0 && kept[0] <= offered && (keep > 0 ==> |kept[0]| <= keep)
    requires AnswersTruly(artifacts, held, kept[0])
    requires SendsQueue(changes, sent, WithFate(artifacts, held, wanted, Queue))
    requires IsKeptRun(kept, changes, keep) && AllTrimmed(kept, changes, keep)
    ensures kept[|changes|] == wanted
  {
    hide IsCut, NoTies, WithFate, FateOf;
    QueueCoversWanted(artifacts, held, wanted, kept[0], changes, sent);
    SyncConverges(kept, changes, keep, VersionsOffered(artifacts), wanted);
  }
}
