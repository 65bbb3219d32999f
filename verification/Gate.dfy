/**
 The gate that keeps requests out until the startup scan, or a retry of a failed one, has succeeded. Reconciliations
 on request read the gate when they come in and may decide it when they are done; the locks serialize only what is in
 between.
 */
module Gate {

  datatype ScanState = Scanning | Ready | Failed

  /** A reconciliation on request: the gate it read, and how it went once it is through. */
  datatype Retry = Retry(read: ScanState, through: bool, ok: bool)

  datatype GateState = GateState(scan: ScanState, retries: map<nat, Retry>)

  datatype Step =
    | StartupEnds(ok: bool)
    | Arrives(r: nat)
    | Reconciles(r: nat, ok: bool)
    | Finishes(r: nat)

  const CLOSED := GateState(Scanning, map[])

  function Outcome(ok: bool): ScanState {
    if ok then Ready else Failed
  }

  /** While the startup scan runs, retries are refused. */
  predicate CanStep(g: GateState, s: Step) {
    match s
    case StartupEnds(_) => g.scan == Scanning
    case Arrives(r) => g.scan != Scanning && r !in g.retries
    case Reconciles(r, _) => r in g.retries && !g.retries[r].through
    case Finishes(r) => r in g.retries && g.retries[r].through
  }

  /** Only a retry that read a failed scan decides the gate. */
  function After(g: GateState, s: Step): GateState
    requires CanStep(g, s)
  {
    match s
    case StartupEnds(ok) => g.(scan := Outcome(ok))
    case Arrives(r) => g.(retries := g.retries[r := Retry(g.scan, false, false)])
    case Reconciles(r, ok) => g.(retries := g.retries[r := Retry(g.retries[r].read, true, ok)])
    case Finishes(r) =>
      var retry := g.retries[r];
      GateState(if retry.read == Failed then Outcome(retry.ok) else g.scan, g.retries - {r})
  }

  ghost predicate IsGateRun(gs: seq<GateState>, steps: seq<Step>) {
    && |gs| == |steps| + 1 && gs[0] == CLOSED
    && forall i | 0 <= i < |steps| :: CanStep(gs[i], steps[i]) && gs[i + 1] == After(gs[i], steps[i])
  }

  /** A reconciliation has succeeded, at startup or on request. */
  predicate Succeeds(s: Step) {
    (s.StartupEnds? || s.Reconciles?) && s.ok
  }

  ghost predicate HasSucceeded(steps: seq<Step>, n: nat)
    requires n <= |steps|
  {
    exists i | 0 <= i < n :: Succeeds(steps[i])
  }

  lemma {:induction false} SuccessIsRemembered(gs: seq<GateState>, steps: seq<Step>, n: nat)
    requires IsGateRun(gs, steps) && n <= |steps|
    ensures gs[n].scan == Ready ==> HasSucceeded(steps, n)
    ensures forall r | r in gs[n].retries && gs[n].retries[r].through && gs[n].retries[r].ok :: HasSucceeded(steps, n)
  {
    if n > 0 {
      SuccessIsRemembered(gs, steps, n - 1);
      var before, s := gs[n - 1], steps[n - 1];
      assert gs[n] == After(before, s);
      if Succeeds(s) {
        assert HasSucceeded(steps, n);
      } else if HasSucceeded(steps, n - 1) {
        var i :| 0 <= i < n - 1 && Succeeds(steps[i]);
        assert HasSucceeded(steps, n);
      }
    }
  }

  /** The gate is open only after some reconciliation of this process has succeeded, however retries overlap. */
  lemma OpenMeansSucceeded(gs: seq<GateState>, steps: seq<Step>, n: nat)
    requires IsGateRun(gs, steps) && n <= |steps| && gs[n].scan == Ready
    ensures HasSucceeded(steps, n)
  {
    SuccessIsRemembered(gs, steps, n);
  }

  /** An open gate closes exactly when a retry that came in while the scan had failed finishes unsuccessfully. */
  lemma OpenGateCloses(g: GateState, s: Step)
    requires g.scan == Ready && CanStep(g, s)
    ensures After(g, s).scan != Ready <==> s.Finishes? && g.retries[s.r].read == Failed && !g.retries[s.r].ok
  {
  }

  /** Retries come one at a time. */
  ghost predicate OneAtATime(gs: seq<GateState>, steps: seq<Step>)
    requires |gs| == |steps| + 1
  {
    forall i | 0 <= i < |steps| && steps[i].Arrives? :: gs[i].retries == map[]
  }

  lemma {:induction false} RetriesReadTheGate(gs: seq<GateState>, steps: seq<Step>, n: nat)
    requires IsGateRun(gs, steps) && OneAtATime(gs, steps) && n <= |steps|
    ensures gs[n].scan == Scanning ==> gs[n].retries == map[]
    ensures forall r | r in gs[n].retries :: gs[n].retries[r].read == gs[n].scan
    ensures forall r, q | r in gs[n].retries && q in gs[n].retries :: r == q
  {
    if n > 0 {
      RetriesReadTheGate(gs, steps, n - 1);
      assert gs[n] == After(gs[n - 1], steps[n - 1]);
    }
  }

  /** If retries come one at a time, an open gate stays open. */
  lemma {:induction false} AloneGateStaysOpen(gs: seq<GateState>, steps: seq<Step>, m: nat, n: nat)
    requires IsGateRun(gs, steps) && OneAtATime(gs, steps) && m <= n <= |steps| && gs[m].scan == Ready
    ensures gs[n].scan == Ready
    decreases n
  {
    if m < n {
      AloneGateStaysOpen(gs, steps, m, n - 1);
      RetriesReadTheGate(gs, steps, n - 1);
      assert gs[n] == After(gs[n - 1], steps[n - 1]);
    }
  }

  /**
   Overlapping retries can close an open gate: both read the failed scan, the first fails, the second succeeds and
   opens the gate, and then the first one finishes. The gate stays closed although the last reconciliation succeeded.
   */
  lemma OverlapClosesAnOpenGate() returns (gs: seq<GateState>, steps: seq<Step>)
    ensures IsGateRun(gs, steps) && |steps| == 7
    ensures gs[6].scan == Ready && gs[7] == GateState(Failed, map[])
    ensures Succeeds(steps[4]) && forall i | 4 < i < 7 :: !steps[i].Reconciles?
  {
    steps := [StartupEnds(false), Arrives(1), Arrives(2), Reconciles(1, false), Reconciles(2, true), Finishes(2),
        Finishes(1)];
    var g1 := After(CLOSED, steps[0]);
    var g2 := After(g1, steps[1]);
    var g3 := After(g2, steps[2]);
    var g4 := After(g3, steps[3]);
    var g5 := After(g4, steps[4]);
    var g6 := After(g5, steps[5]);
    var g7 := After(g6, steps[6]);
    gs := [CLOSED, g1, g2, g3, g4, g5, g6, g7];
    assert g7.retries == map[];
  }
}
