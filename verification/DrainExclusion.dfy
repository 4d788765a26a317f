/** The work queue hands a child to one worker at a time. With that the gauge is never negative, not even
    between a commit and its metric call; without it, it can be. */
module DrainExclusion {
  import opened Wrappers
  import opened KubeObjects
  import opened CascadeDrain
  import opened DrainGauge

  predicate Busy(s: Cluster, w: nat) {
    w in s.workers && !s.workers[w].pc.Idle?
  }

  /** No two busy workers on one child. */
  predicate Exclusive(s: Cluster) {
    forall v, w :: v in s.workers && w in s.workers && v != w && Busy(s, v) && Busy(s, w) ==>
      s.workers[v].uid != s.workers[w].uid
  }

  /** A worker takes up a child only when no other worker is busy with it. */
  predicate TakesUpAlone(s: Cluster, a: Action) {
    a.Read? ==> forall v :: v in s.workers && v != a.worker && Busy(s, v) ==> s.workers[v].uid != a.uid
  }

  predicate AloneRun(s: Cluster, actions: seq<Action>)
    decreases |actions|
  {
    actions != [] ==> TakesUpAlone(s, actions[0]) && AloneRun(Step(s, actions[0]), actions[1..])
  }

  /** A child with an increment pending still carries the token. */
  predicate PendingCarry(s: Cluster) {
    forall w :: w in s.workers && s.workers[w].pc.CountUp? ==>
      s.workers[w].uid in s.children && Carries(s.children[s.workers[w].uid].record)
  }

  lemma PerformAlone(s: Cluster, w: nat, call: Call)
    requires Exclusive(s) && PendingCarry(s) && Busy(s, w) && s.workers[w].uid in s.children
    requires !s.workers[w].pc.CountUp? && CallOk(s.kind, s.children[s.workers[w].uid], call)
    ensures Exclusive(Perform(s, w, call)) && PendingCarry(Perform(s, w, call))
  {
    hide Carries, ChildOk, PcOk, Extends;
  }

  lemma StepAlone(s: Cluster, a: Action)
    requires Inv(s) && Exclusive(s) && PendingCarry(s) && TakesUpAlone(s, a)
    ensures Exclusive(Step(s, a)) && PendingCarry(Step(s, a))
  {
    hide Carries, ChildOk, DecideCall, FinishCall, Respects, CallOk, Perform, Sees;
    if Enabled(s, a) {
      if a.Decide? {
        var k := s.workers[a.worker];
        DecideOk(s.kind, s.children[k.uid], k.pc.base, k.pc.status, s.now, a.outcome);
        PerformAlone(s, a.worker, DecideCall(s.kind, s.children[k.uid], k.pc.base, k.pc.status, s.now, a.outcome));
      } else if a.Finish? {
        var k := s.workers[a.worker];
        FinishOk(s.kind, s.storage, s.children[k.uid], k.pc.base, a.ok);
        PerformAlone(s, a.worker, FinishCall(s.kind, s.storage, s.children[k.uid], k.pc.base, a.ok));
      } else if a.Outside? {
        OutsideOk(s.kind, s.children[a.uid], a.next);
      }
    }
  }

  /** Distinct workers with pending increments stand on distinct children with tokens. */
  lemma {:induction false} PendingFit(s: Cluster, ws: set<nat>, uids: set<Uid>)
    requires Exclusive(s)
    requires forall w :: w in ws ==> w in s.workers && s.workers[w].pc.CountUp? && s.workers[w].uid in uids
    ensures |ws| <= |uids|
    decreases |ws|
  {
    if ws != {} {
      var w :| w in ws;
      PendingFit(s, ws - {w}, uids - {s.workers[w].uid});
    }
  }

  lemma {:induction false} RunAlone(s: Cluster, actions: seq<Action>)
    requires Inv(s) && GaugeExact(s) && Exclusive(s) && PendingCarry(s) && AloneRun(s, actions)
    ensures Exclusive(Run(s, actions)) && PendingCarry(Run(s, actions))
    decreases |actions|
  {
    hide Inv, GaugeExact, Step, Exclusive, PendingCarry, TakesUpAlone;
    if actions != [] {
      StepKeeps(s, actions[0]);
      StepAlone(s, actions[0]);
      RunAlone(Step(s, actions[0]), actions[1..]);
    }
  }

  lemma NotNegative(s: Cluster)
    requires GaugeExact(s) && Exclusive(s) && PendingCarry(s)
    ensures s.gauge >= |PendingDown(s)| >= 0
  {
    hide Exclusive, Carries;
    PendingFit(s, PendingUp(s), Carriers(s));
  }

  /** In every state of every run in which a child is taken up by one worker at a time, the gauge is at
      least the number of decrements still to come, and so never negative. */
  lemma GaugeNeverNegative(s: Cluster, actions: seq<Action>)
    requires Initial(s) && AloneRun(s, actions)
    ensures var t := Run(s, actions); t.gauge >= |PendingDown(t)| >= 0
  {
    assert Carriers(s) == {} && PendingUp(s) == {} && PendingDown(s) == {};
    RunKeeps(s, actions);
    RunAlone(s, actions);
    NotNegative(Run(s, actions));
  }

  // ---- Two workers on one child ----

  const FRESH := Cluster(PipelineRun, true, map[], map[], 0, 0)
  const ACTIVE := Status(false, true, 0)
  const DONE := Status(true, true, 0)
  const BORN := Object({DrainFinalizer(PipelineRun)}, map[], None, false, 0, ACTIVE)
  const DELETED := BORN.(deletedAt := Some(0))
  const CANCELLED := DELETED.(kill := true, annotations := map[DRAIN_COUNTED_ANNOTATION := "true"])

  /** Worker 0 requests the cancel of a deleted run and has yet to count it. */
  const CANCEL: seq<Action> := [
    Create(0, BORN), Outside(0, Record([BORN, DELETED], true)),
    Read(0, 0, 1, ACTIVE), Decide(0, Outcome(true, true, ACTIVE))]

  const AFTER_CANCEL := Cluster(PipelineRun, true,
    map[0 := Child(Record([BORN, DELETED, CANCELLED], true), Trail(1, 0, false, false))],
    map[0 := Worker(0, CountUp)], 0, 0)

  /** Meanwhile worker 1 sees the run end, completes the drain and counts that. */
  const OVERTAKE: seq<Action> := [
    Read(1, 0, 2, ACTIVE), Decide(1, Outcome(true, true, DONE)), Finish(1, true), Count(1)]

  lemma CancelPending()
    ensures Run(FRESH, CANCEL) == AFTER_CANCEL
  {
    RunFour(FRESH, CANCEL[0], CANCEL[1], CANCEL[2], CANCEL[3]);
    var s1 := Step(FRESH, CANCEL[0]);
    var s2 := Step(s1, CANCEL[1]);
    assert Record([BORN, DELETED], true).versions[..1] == [BORN];
    assert s2.children == map[0 := Child(Record([BORN, DELETED], true), Trail(0, 0, false, false))];
    var s3 := Step(s2, CANCEL[2]);
    assert s3.workers == map[0 := Worker(0, Deciding(1, ACTIVE))];
    UpdateEffect(s3.children[0].record, 1, Cancelled(PipelineRun, DELETED));
    assert map[][DRAIN_COUNTED_ANNOTATION := "true"] == map[DRAIN_COUNTED_ANNOTATION := "true"];
    var s4 := Step(s3, CANCEL[3]);
    assert [BORN, DELETED] + [CANCELLED] == [BORN, DELETED, CANCELLED];
    assert s4.children == AFTER_CANCEL.children && s4.workers == AFTER_CANCEL.workers;
  }

  lemma Overtaken()
    ensures var t := Run(AFTER_CANCEL, OVERTAKE); t.gauge == -1 && PendingDown(t) == {}
  {
    var s := AFTER_CANCEL;
    RunFour(s, OVERTAKE[0], OVERTAKE[1], OVERTAKE[2], OVERTAKE[3]);
    var s1 := Step(s, OVERTAKE[0]);
    assert s1.workers[1] == Worker(0, Deciding(2, ACTIVE));
    var s2 := Step(s1, OVERTAKE[1]);
    UpdateStatusEffect(s1.children[0].record, 2, DONE);
    assert s2.children[0].record == Record([BORN, DELETED, CANCELLED] + [CANCELLED.(status := DONE)], true);
    assert s2.workers[1] == Worker(0, Finishing(3));
    var s3 := Step(s2, OVERTAKE[2]);
    assert s3.workers[1] == Worker(0, CountDown);
    var s4 := Step(s3, OVERTAKE[3]);
    assert s4.gauge == -1;
    assert forall w :: w in s4.workers ==> w == 0 || w == 1;
    assert s4.workers[0].pc == CountUp && s4.workers[1].pc == Idle;
  }

  lemma {:induction false} AloneTail(s: Cluster, a: seq<Action>, b: seq<Action>)
    requires AloneRun(s, a + b)
    ensures AloneRun(Run(s, a), b)
    decreases |a|
  {
    hide Step, TakesUpAlone;
    if a == [] {
      assert a + b == b;
    } else {
      assert (a + b)[1..] == a[1..] + b;
      AloneTail(Step(s, a[0]), a[1..], b);
    }
  }

  /** The exclusion is needed: in this run, which breaks it, the gauge falls to -1 with no decrement
      pending. */
  lemma OvertakingGoesNegative()
    ensures var t := Run(FRESH, CANCEL + OVERTAKE); t.gauge == -1 && PendingDown(t) == {}
    ensures Initial(FRESH) && !AloneRun(FRESH, CANCEL + OVERTAKE)
  {
    hide Run, Step;
    RunConcat(FRESH, CANCEL, OVERTAKE);
    CancelPending();
    Overtaken();
    assert Busy(AFTER_CANCEL, 0) && !TakesUpAlone(AFTER_CANCEL, OVERTAKE[0]);
    if AloneRun(FRESH, CANCEL + OVERTAKE) {
      AloneTail(FRESH, CANCEL, OVERTAKE);
    }
  }
}
