/**
  The test-session controller (`simulation-controller.js`).

  `startSimulation` is an `async` method that awaits a settle delay in the
  middle. It is modelled as the synchronous part that runs when it is called
  (`StartSimulation`, lines 31-113) and the continuation the scheduler resumes
  after the delay (`ResumeAfterSettle`, lines 121-135). As in the code,
  `isRunning` becomes true only in the continuation, so between the two it is
  still false. `Date.now()` is the `now` argument, in milliseconds.
 */
module Simulation {
  import opened Scene
  import opened Structure
  import opened Outcome
  import opened LoadDropping

  /** The defaults of the `settleDelay` and `checkDuration` properties, in seconds. */
  const DefaultSettleDelay: real := 0.3
  const DefaultCheckDuration: real := 8.0

  /** Height at or below which a piece no longer counts as standing. */
  const CollapseHeight: real := -5.0

  /** Why `startSimulation` returned without starting anything. */
  datatype Rejection = AlreadyRunning | NoBridgeRoot | NoSpawner | NoComponents

  /**
    What the synchronous part of `startSimulation` did: returned early, or
    swapped the pieces and suspended, leaving the load drop to the
    continuation.
   */
  datatype StartOutcome = Rejected(reason: Rejection) | Settling(replacedCount: nat, loadKind: string)

  /** What `evaluateResults` decides: the tier, and the breakdown it logs (none without a root). */
  datatype Evaluation = Evaluation(tier: Tier, breakdown: Option<map<string, nat>>)

  /** The record `getSimulationStatus` returns. */
  datatype SimulationStatus = SimulationStatus(
    isRunning: bool, elapsedTime: real, remainingComponents: nat, initialComponents: nat)

  /** A child still standing: not destroyed, and above the collapse height. */
  predicate Standing(p: Piece) {
    !p.destroyed && p.pose.position.y > CollapseHeight
  }

  /** The number of standing pieces of `s`. */
  function StandingCount(s: seq<Piece>): nat {
    if s == [] then 0
    else StandingCount(s[..|s| - 1]) + (if Standing(s[|s| - 1]) then 1 else 0)
  }

  lemma {:induction false} StandingCountZero(s: seq<Piece>)
    ensures StandingCount(s) == 0 <==> forall k :: 0 <= k < |s| ==> !Standing(s[k])
  {
    if s != [] {
      var init := s[..|s| - 1];
      StandingCountZero(init);
      assert forall k :: 0 <= k < |init| ==> init[k] == s[k];
    }
  }

  /** The seconds between the clock readings `startTime` and `now` (milliseconds). */
  function ElapsedSeconds(now: int, startTime: int): (seconds: real)
    ensures seconds * 1000.0 == (now - startTime) as real
    ensures now >= startTime ==> seconds >= 0.0
  {
    (now - startTime) as real / 1000.0
  }

  /** The evaluation of a session over the root's current children. */
  function EvaluationOf(children: seq<Piece>, initial: nat): Evaluation {
    Evaluation(TierOf(|children|, initial), Some(TypeCounts(children)))
  }

  class SimulationController {
    const bridgeRoot: BridgeRoot?
    /** The `component-spawner` found on `spawnerObject`, if any. */
    const spawner: Option<Spawner>
    /** The `load-dropper` found on `dropperObject`, if any. */
    const dropper: LoadDropper?
    /**
      Seconds the continuation waits before dropping the load. The wait is
      the scheduler's: `ResumeAfterSettle` is a separate call, and nothing
      here enforces when it comes.
     */
    const settleDelay: real
    /** Seconds after which a running session ends. */
    const checkDuration: real

    var isRunning: bool
    /** Clock reading (milliseconds) when the session started running. */
    var startTime: int
    var testLoad: Option<Load>
    var initialComponentCount: nat

    ghost predicate Valid()
      reads this, bridgeRoot
    {
      bridgeRoot != null ==> bridgeRoot.Valid()
    }

    /** `init`. */
    constructor (bridgeRoot: BridgeRoot?, spawner: Option<Spawner>, dropper: LoadDropper?,
                 settleDelay: real := DefaultSettleDelay, checkDuration: real := DefaultCheckDuration)
      requires bridgeRoot != null ==> bridgeRoot.Valid()
      ensures Valid()
      ensures this.bridgeRoot == bridgeRoot && this.spawner == spawner && this.dropper == dropper
      ensures this.settleDelay == settleDelay && this.checkDuration == checkDuration
      ensures !isRunning && startTime == 0 && testLoad.None? && initialComponentCount == 0
    {
      this.bridgeRoot := bridgeRoot;
      this.spawner := spawner;
      this.dropper := dropper;
      this.settleDelay := settleDelay;
      this.checkDuration := checkDuration;
      isRunning := false;
      startTime := 0;
      testLoad := None;
      initialComponentCount := 0;
    }

    /**
      The synchronous part of `startSimulation(selectedLoadKind)`: the guards,
      the snapshot of the root's children, and the build-to-runtime swap over
      that snapshot.
     */
    method StartSimulation(selectedLoadKind: string := "car") returns (outcome: StartOutcome)
      requires Valid()
      modifies this, bridgeRoot
      ensures Valid()
      ensures old(isRunning) ==> outcome == Rejected(AlreadyRunning)
      ensures !old(isRunning) && bridgeRoot == null ==> outcome == Rejected(NoBridgeRoot)
      ensures !old(isRunning) && bridgeRoot != null && spawner.None? ==> outcome == Rejected(NoSpawner)
      ensures !old(isRunning) && bridgeRoot != null && spawner.Some? && |old(bridgeRoot.children)| == 0
              ==> outcome == Rejected(NoComponents)
      ensures outcome.Settling? <==>
              !old(isRunning) && bridgeRoot != null && spawner.Some? && |old(bridgeRoot.children)| > 0
      // Returns before the snapshot change nothing at all.
      ensures outcome.Rejected? && outcome.reason != NoComponents ==>
              unchanged(this) && (bridgeRoot != null ==> unchanged(bridgeRoot))
      // An empty root records a count of 0 and touches no piece.
      ensures outcome == Rejected(NoComponents) ==>
              initialComponentCount == 0 && !isRunning && startTime == old(startTime) &&
              testLoad == old(testLoad) && unchanged(bridgeRoot)
      // Otherwise the pieces are swapped, and the session is not yet running.
      ensures outcome.Settling? ==>
              && bridgeRoot != null && spawner.Some?
              && outcome.loadKind == selectedLoadKind
              && initialComponentCount == |old(bridgeRoot.children)|
              && bridgeRoot.children == Swapped(old(bridgeRoot.children), spawner.value, old(bridgeRoot.nextId))
              && outcome.replacedCount == |Clones(old(bridgeRoot.children), spawner.value, old(bridgeRoot.nextId))|
              && bridgeRoot.nextId == old(bridgeRoot.nextId) + outcome.replacedCount
              && !isRunning && startTime == old(startTime) && testLoad == old(testLoad)
    {
      if isRunning {
        return Rejected(AlreadyRunning);
      }
      if bridgeRoot == null {
        return Rejected(NoBridgeRoot);
      }
      if spawner.None? {
        return Rejected(NoSpawner);
      }
      var root := bridgeRoot;
      var childrenAtStart := root.children;
      initialComponentCount := |childrenAtStart|;
      if initialComponentCount == 0 {
        return Rejected(NoComponents);
      }

      var replacedCount := SwapToRuntime(root, spawner.value);
      outcome := Settling(replacedCount, selectedLoadKind);
    }

    /**
      The continuation of `startSimulation` after the settle delay: the load
      is dropped (when a dropper is found) and the session starts running.
      Nothing here looks at `isRunning` or at what happened during the wait.
     */
    method ResumeAfterSettle(selectedLoadKind: string, now: int)
      modifies this
      ensures testLoad == if dropper != null then dropper.DropLoad(selectedLoadKind, None) else old(testLoad)
      ensures isRunning && startTime == now
      ensures initialComponentCount == old(initialComponentCount)
    {
      if dropper != null {
        testLoad := dropper.DropLoad(selectedLoadKind);
      }
      isRunning := true;
      startTime := now;
    }

    /** The evaluation `evaluateResults` would make now. */
    function CurrentEvaluation(): Evaluation
      reads this, bridgeRoot
    {
      if bridgeRoot == null then Evaluation(Failure, None)
      else EvaluationOf(bridgeRoot.children, initialComponentCount)
    }

    /**
      `update(dt)` at clock reading `now`: returns the evaluation when this
      tick ends the session, `None` otherwise. Collapse is checked before the
      timer, and the time limit is strict.
     */
    method Update(now: int) returns (ended: Option<Evaluation>)
      modifies this
      ensures startTime == old(startTime) && testLoad == old(testLoad)
      ensures initialComponentCount == old(initialComponentCount)
      ensures !old(isRunning) ==> ended.None? && !isRunning
      ensures old(isRunning) && Collapsed() ==> !isRunning && ended == Some(CurrentEvaluation())
      ensures old(isRunning) && !Collapsed() && ElapsedSeconds(now, startTime) > checkDuration ==>
              !isRunning && ended == Some(CurrentEvaluation())
      ensures old(isRunning) && !Collapsed() && ElapsedSeconds(now, startTime) <= checkDuration ==>
              isRunning && ended.None?
    {
      if !isRunning {
        return None;
      }
      var elapsedTime := ElapsedSeconds(now, startTime);
      var collapsed := IsBridgeCompletelyCollapsed();
      if collapsed {
        isRunning := false;
        var e := EvaluateResults();
        return Some(e);
      }
      if elapsedTime > checkDuration {
        isRunning := false;
        var e := EvaluateResults();
        return Some(e);
      }
      ended := None;
    }

    /** No child stands: there is no root, it has no children, or none is live and above the collapse height. */
    ghost predicate Collapsed()
      reads this, bridgeRoot
    {
      bridgeRoot == null || |bridgeRoot.children| == 0 ||
      forall k :: 0 <= k < |bridgeRoot.children| ==> !Standing(bridgeRoot.children[k])
    }

    /** `isBridgeCompletelyCollapsed`: counts the standing children. */
    method IsBridgeCompletelyCollapsed() returns (collapsed: bool)
      ensures collapsed == Collapsed()
    {
      if bridgeRoot == null {
        return true;
      }
      var count := |bridgeRoot.children|;
      if count == 0 {
        return true;
      }
      var children := bridgeRoot.children;
      var standingComponents := 0;
      for i := 0 to |children|
        invariant standingComponents == StandingCount(children[..i])
      {
        assert children[..i + 1][..i] == children[..i];
        var child := children[i];
        if child.destroyed {
          continue;
        }
        if child.pose.position.y > CollapseHeight {
          standingComponents := standingComponents + 1;
        }
      }
      assert children[..|children|] == children;
      StandingCountZero(children);
      collapsed := standingComponents == 0;
    }

    /**
      `evaluateResults`: a missing root is a failure; otherwise the survival
      rate is the root's current child count over the initial count.
     */
    method EvaluateResults() returns (e: Evaluation)
      ensures bridgeRoot == null ==> e == Evaluation(Failure, None)
      ensures bridgeRoot != null ==>
              e.tier == TierOf(|bridgeRoot.children|, initialComponentCount) &&
              e.breakdown == Some(TypeCounts(bridgeRoot.children))
    {
      if bridgeRoot == null {
        return Evaluation(Failure, None);
      }
      var remainingComponents := |bridgeRoot.children|;
      var survivalRate := SurvivalRate(remainingComponents, initialComponentCount);
      var tier := TierFor(survivalRate);
      var breakdown := LogBridgeStatus();
      e := Evaluation(tier, breakdown);
    }

    /**
      `logBridgeStatus`: the number of live children per component type,
      counting a missing or empty type as 'Unknown'.
     */
    method LogBridgeStatus() returns (componentTypes: Option<map<string, nat>>)
      ensures bridgeRoot == null <==> componentTypes.None?
      ensures bridgeRoot != null ==> componentTypes == Some(TypeCounts(bridgeRoot.children))
      ensures bridgeRoot != null ==>
              (forall t :: CountIn(componentTypes.value, t) == CountOfType(bridgeRoot.children, t)) &&
              Total(componentTypes.value) == LiveCount(bridgeRoot.children)
    {
      if bridgeRoot == null {
        return None;
      }
      var children := bridgeRoot.children;
      var counts: map<string, nat> := map[];
      for i := 0 to |children|
        invariant counts == TypeCounts(children[..i])
      {
        assert children[..i + 1][..i] == children[..i];
        var child := children[i];
        if child.destroyed {
          continue;
        }
        var name := TypeName(child);
        counts := counts[name := (if name in counts then counts[name] else 0) + 1];
      }
      assert children[..|children|] == children;
      forall t ensures CountIn(counts, t) == CountOfType(children, t) {
        TypeCountsPerType(children, t);
      }
      TypeCountsTotal(children);
      componentTypes := Some(counts);
    }

    /** `stopSimulation`: clears `isRunning` and nothing else. */
    method StopSimulation()
      modifies this
      ensures !isRunning
      ensures startTime == old(startTime) && testLoad == old(testLoad)
      ensures initialComponentCount == old(initialComponentCount)
    {
      isRunning := false;
    }

    /** `getSimulationStatus` at clock reading `now`; it changes nothing. */
    function GetSimulationStatus(now: int): (s: SimulationStatus)
      reads this, bridgeRoot
      ensures s.isRunning == isRunning && s.initialComponents == initialComponentCount
      ensures !isRunning ==> s.elapsedTime == 0.0
      ensures isRunning ==> s.elapsedTime == ElapsedSeconds(now, startTime)
      ensures s.remainingComponents == if bridgeRoot == null then 0 else |bridgeRoot.children|
    {
      SimulationStatus(
        isRunning,
        if isRunning then ElapsedSeconds(now, startTime) else 0.0,
        if bridgeRoot == null then 0 else |bridgeRoot.children|,
        initialComponentCount)
    }
  }

  // ----- How the operations compose, as the code is written -----

  /**
    A second `startSimulation` issued while the first is waiting out its
    settle delay is not rejected: `isRunning` is still false and the swap kept
    the child count, so it takes a new snapshot and swaps again.
   */
  method StartDuringSettleIsNotRejected(c: SimulationController, kind: string)
    returns (first: StartOutcome, second: StartOutcome)
    requires c.Valid()
    modifies c, c.bridgeRoot
    ensures first.Settling? ==> second.Settling? && c.bridgeRoot != null && c.initialComponentCount == old(|c.bridgeRoot.children|)
  {
    first := c.StartSimulation(kind);
    if first.Settling? {
      SwapKeepsCount(old(c.bridgeRoot.children), c.spawner.value, old(c.bridgeRoot.nextId));
    }
    second := c.StartSimulation(kind);
  }

  /**
    A `stopSimulation` issued during the settle delay does not cancel the
    drop: when the continuation resumes, the load is dropped and the session
    runs anyway, timed from the resume.
   */
  method StopDuringSettleDoesNotCancelDrop(c: SimulationController, kind: string, now: int)
    returns (first: StartOutcome)
    requires c.Valid()
    modifies c, c.bridgeRoot
    ensures first.Settling? ==>
            && c.isRunning && c.startTime == now
            && (c.dropper != null ==> c.testLoad == c.dropper.DropLoad(kind, None))
  {
    first := c.StartSimulation(kind);
    c.StopSimulation();
    if first.Settling? {
      c.ResumeAfterSettle(first.loadKind, now);
    }
  }

  /** A session that ended on one tick is not evaluated again on the next. */
  method EndedSessionEvaluatesOnce(c: SimulationController, now: int, later: int)
    returns (e1: Option<Evaluation>, e2: Option<Evaluation>)
    modifies c
    ensures e1.Some? ==> e2.None? && !c.isRunning
  {
    e1 := c.Update(now);
    e2 := c.Update(later);
  }

  /** Stopping twice leaves the same state as stopping once. */
  method StopIsIdempotent(c: SimulationController)
    modifies c
    ensures !c.isRunning && c.startTime == old(c.startTime) && c.testLoad == old(c.testLoad)
    ensures c.initialComponentCount == old(c.initialComponentCount)
  {
    c.StopSimulation();
    c.StopSimulation();
  }
}
