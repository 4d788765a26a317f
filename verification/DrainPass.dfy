/** One undisturbed run of the driver, and why a drain cannot wedge. */
module DrainPass {
  import opened Wrappers
  import opened KubeObjects
  import opened CascadeDrain
  import opened DrainGauge
  import opened DrainHistory

  /** The child afterwards, how far the gauge moves, whether the step asks to be requeued, and whether it
      returns an error. */
  datatype Passed = Passed(child: Child, gauge: int, requeue: bool, err: bool)

  /** `RunDrainStep` from version `base` of the child, with nobody else acting meanwhile. */
  function Pass(kind: Kind, storage: bool, c: Child, base: nat, status: Status, now: int, outcome: Outcome,
                finishOk: bool): (p: Passed)
    requires base < |c.record.versions|
    ensures Extends(c.record, p.child.record)
  {
    CallExtends(kind, c, base, status, now, outcome);
    var plan := PlanFor(c.record.versions[base], status, DrainFinalizer(kind), now);
    var d := DecideCall(kind, c, base, status, now, outcome);
    match d.pc
    case Finishing(b) =>
      FinishExtends(kind, storage, d.child, b, finishOk);
      var f := FinishCall(kind, storage, d.child, b, finishOk);
      var committed := finishOk && Update(d.child.record, b, Drained(kind, storage, d.child.record.versions[b])).Some?;
      Passed(f.child, if f.pc.CountDown? then -1 else 0, false, !committed)
    case CountUp => Passed(d.child, 1, true, false)
    case _ =>
      var waits := plan == Progress && ProgressWaits(kind, c, base, status, outcome);
      Passed(d.child, 0, waits, plan != Nothing && !waits)
  }

  /** Progress went through and the run is still not terminal. */
  predicate ProgressWaits(kind: Kind, c: Child, base: nat, status: Status, outcome: Outcome) {
    && outcome.engine && kind == PipelineRun && !outcome.status.terminal
    && (outcome.status == status || (outcome.ok && UpToDate(c.record, base)))
  }

  lemma CallExtends(kind: Kind, c: Child, base: nat, status: Status, now: int, outcome: Outcome)
    requires base < |c.record.versions|
    ensures var d := DecideCall(kind, c, base, status, now, outcome);
      && Extends(c.record, d.child.record) && !d.pc.Deciding? && !d.pc.CountDown?
      && (d.pc.Finishing? ==> d.pc.base < |d.child.record.versions|)
  {
    hide Lookup, DrainFinalizer, Cancelled, ServerAllows;
  }

  lemma FinishExtends(kind: Kind, storage: bool, c: Child, base: nat, ok: bool)
    requires base < |c.record.versions|
    ensures Extends(c.record, FinishCall(kind, storage, c, base, ok).child.record)
  {
  }

  // ---- A pass is four steps of the interleaving machine ----

  function PassActions(w: nat, uid: Uid, base: nat, status: Status, outcome: Outcome, finishOk: bool): seq<Action> {
    [Read(w, uid, base, status), Decide(w, outcome), Finish(w, finishOk), Count(w)]
  }

  /** An idle worker that reads, decides, finishes and counts without interruption leaves the child and
      the gauge as one pass does, and is idle again. */
  lemma PassIsARun(s: Cluster, w: nat, uid: Uid, base: nat, status: Status, outcome: Outcome, finishOk: bool)
    requires Enabled(s, Read(w, uid, base, status))
    ensures var t := Run(s, PassActions(w, uid, base, status, outcome, finishOk));
      var p := Pass(s.kind, s.storage, s.children[uid], base, status, s.now, outcome, finishOk);
      && uid in t.children && t.children[uid] == p.child && t.gauge == s.gauge + p.gauge && IsIdle(t, w)
      && (forall v :: v in s.children && v != uid ==> v in t.children && t.children[v] == s.children[v])
  {
    hide Extends, PlanFor, ProgressWaits, DecideCall, FinishCall, Update, Step, Run, Drained;
    var s1 := Step(s, Read(w, uid, base, status));
    var s2 := Step(s1, Decide(w, outcome));
    var s3 := Step(s2, Finish(w, finishOk));
    var s4 := Step(s3, Count(w));
    RunFour(s, Read(w, uid, base, status), Decide(w, outcome), Finish(w, finishOk), Count(w));
    DecideFromRead(s, s1, s2, w, uid, base, status, outcome);
    CallExtends(s.kind, s.children[uid], base, status, s.now, outcome);
    FinishAndCount(s2, s3, s4, w, uid, finishOk);
  }

  lemma DecideFromRead(s: Cluster, s1: Cluster, s2: Cluster, w: nat, uid: Uid, base: nat, status: Status,
                       outcome: Outcome)
    requires Enabled(s, Read(w, uid, base, status))
    requires s1 == Step(s, Read(w, uid, base, status)) && s2 == Step(s1, Decide(w, outcome))
    ensures var d := DecideCall(s.kind, s.children[uid], base, status, s.now, outcome);
      s2 == s.(children := s.children[uid := d.child], workers := s.workers[w := Worker(uid, d.pc)])
  {
    hide DecideCall;
    var d := DecideCall(s.kind, s.children[uid], base, status, s.now, outcome);
    assert s2.workers == s1.workers[w := Worker(uid, d.pc)] == s.workers[w := Worker(uid, d.pc)];
  }

  lemma FinishAndCount(s2: Cluster, s3: Cluster, s4: Cluster, w: nat, uid: Uid, finishOk: bool)
    requires w in s2.workers && s2.workers[w].uid == uid && uid in s2.children && !s2.workers[w].pc.Deciding?
    requires s2.workers[w].pc.Finishing? ==> s2.workers[w].pc.base < |s2.children[uid].record.versions|
    requires s3 == Step(s2, Finish(w, finishOk)) && s4 == Step(s3, Count(w))
    ensures IsIdle(s4, w) && uid in s4.children
    ensures forall v :: v in s2.children && v != uid ==> v in s4.children && s4.children[v] == s2.children[v]
    ensures match s2.workers[w].pc
      case Finishing(b) =>
        var f := FinishCall(s2.kind, s2.storage, s2.children[uid], b, finishOk);
        s4.children[uid] == f.child && s4.gauge == s2.gauge + (if f.pc.CountDown? then -1 else 0)
      case CountUp => s4.children[uid] == s2.children[uid] && s4.gauge == s2.gauge + 1
      case CountDown => s4.children[uid] == s2.children[uid] && s4.gauge == s2.gauge - 1
      case _ => s4.children[uid] == s2.children[uid] && s4.gauge == s2.gauge
  {
    hide Drained, Update;
  }

  // ---- No drain wedges ----

  /** What one pass finds: the child as it is, and the time. */
  datatype Visit = Visit(child: Child, status: Status, now: int, outcome: Outcome)

  predicate VisitOf(kind: Kind, v: Visit, deletedAt: int) {
    && v.child.record.Valid() && v.child.record.present
    && v.child.record.Current().deletedAt == Some(deletedAt)
    && Sees(kind, v.child.record.Current(), v.status)
  }

  function PassOf(kind: Kind, storage: bool, v: Visit): Passed
    requires v.child.record.Valid()
  {
    Pass(kind, storage, v.child, v.child.record.Latest(), v.status, v.now, v.outcome, true)
  }

  lemma FreshFinishEndsDrain(kind: Kind, storage: bool, c: Child)
    requires c.record.Valid() && c.record.present && c.record.Current().deletedAt.Some?
    ensures var f := FinishCall(kind, storage, c, c.record.Latest(), true).child;
      DrainOver(kind, f.record) && f.trail.cancels == c.trail.cancels && f.trail.forced == c.trail.forced
    ensures Update(c.record, c.record.Latest(), Drained(kind, storage, c.record.Current())).Some?
  {
    hide Lookup, DrainFinalizer;
    var r := c.record;
    UpdateEffect(r, r.Latest(), Drained(kind, storage, r.Current()));
  }

  /** After the deadline one pass on the newest version whose CompleteDrain is answered ends the drain,
      whatever the status, the token, ForceKill or the engine say. */
  lemma DeadlineEndsDrain(kind: Kind, storage: bool, v: Visit, deletedAt: int)
    requires VisitOf(kind, v, deletedAt) && v.now - deletedAt >= CASCADE_DRAIN_TIMEOUT
    ensures DrainOver(kind, PassOf(kind, storage, v).child.record)
  {
    hide Lookup, DrainFinalizer, ProgressCall, MarkKilledCall, RequestCancelCall, FinishCall, Update, Extends, Sees;
    FreshFinishEndsDrain(kind, storage, v.child);
    FreshFinishEndsDrain(kind, storage, v.child.(trail := v.child.trail.(forced := true)));
  }

  /** A run that is terminal, or never started, is released by the first pass without errors, without a
      cancel, and without ForceKill unless it is active past the deadline. */
  lemma DoneEndsDrain(kind: Kind, storage: bool, v: Visit, deletedAt: int)
    requires VisitOf(kind, v, deletedAt) && v.outcome.ok && (v.status.terminal || !v.status.started)
    ensures var p := PassOf(kind, storage, v);
      && DrainOver(kind, p.child.record) && p.child.trail.cancels == v.child.trail.cancels
      && (v.status.terminal || v.now - deletedAt < CASCADE_DRAIN_TIMEOUT ==>
            p.child.trail.forced == v.child.trail.forced)
  {
    hide Lookup, DrainFinalizer, ProgressCall, MarkKilledCall, RequestCancelCall, FinishCall, Update, Extends, Sees;
    var c := v.child;
    FreshFinishEndsDrain(kind, storage, c);
    FreshFinishEndsDrain(kind, storage, c.(trail := c.trail.(forced := true)));
    if DrainFinalizer(kind) in c.record.Current().finalizers {
      MarkKilledCommits(c, v.status, v.outcome);
      FreshFinishEndsDrain(kind, storage, MarkKilledCall(c, c.record.Latest(), v.status, v.outcome).child);
    }
  }

  lemma MarkKilledCommits(c: Child, status: Status, outcome: Outcome)
    requires c.record.Valid() && c.record.present && c.record.Current().deletedAt.Some?
    requires c.record.Current().finalizers != {} && outcome.ok
    ensures var d := MarkKilledCall(c, c.record.Latest(), status, outcome);
      && d.child.record.Valid() && d.child.record.present && d.pc == Finishing(d.child.record.Latest())
      && d.child.record.Current().deletedAt.Some? && d.child.trail == c.trail
  {
    UpdateStatusEffect(c.record, c.record.Latest(), status.(terminal := true));
  }

  /** The work queue waits the requeue interval. */
  predicate Spaced(times: seq<int>) {
    forall i :: 0 <= i < |times| - 1 ==> times[i + 1] >= times[i] + DRAIN_REQUEUE_INTERVAL
  }

  lemma {:induction false} SpacedAdvance(times: seq<int>, k: nat)
    requires Spaced(times) && k < |times|
    ensures times[k] >= times[0] + k * DRAIN_REQUEUE_INTERVAL
  {
    if k > 0 {
      SpacedAdvance(times, k - 1);
    }
  }

  function Times(visits: seq<Visit>): seq<int> {
    seq(|visits|, i requires 0 <= i < |visits| => visits[i].now)
  }

  /** Of the passes that find the newest version, at least the requeue interval apart, and whose
      CompleteDrain, if reached, is answered, at most 8640 (24 hours by 10 seconds) leave the child
      undrained. Nothing is assumed of what Progress answers; `DrainProgress` has the bound for whole runs. */
  lemma FreshPassesBounded(kind: Kind, storage: bool, visits: seq<Visit>, deletedAt: int)
    requires forall v :: v in visits ==>
      VisitOf(kind, v, deletedAt) && v.now >= deletedAt && !DrainOver(kind, PassOf(kind, storage, v).child.record)
    requires Spaced(Times(visits))
    ensures |visits| <= CASCADE_DRAIN_TIMEOUT / DRAIN_REQUEUE_INTERVAL == 8640
  {
    hide DrainOver, Pass, Sees;
    if |visits| > 8640 {
      var v := visits[8640];
      SpacedAdvance(Times(visits), 8640);
      assert visits[0] in visits && v in visits;
      DeadlineEndsDrain(kind, storage, v, deletedAt);
    }
  }
}
