/** What one pass of the drain driver achieves when everybody answers, on the stored versions and the gauge:
    a run is cancelled, then finished, and nothing else happens to it. */
module DrainLiveness {
  import opened Wrappers
  import opened KubeObjects
  import opened CascadeDrain
  import opened DrainPass

  const DAY: int := 86_400_000_000_000

  // ---- Objects, by the names that are stored ----

  function FinalizerName(kind: Kind): string {
    if kind.PipelineRun? then "pipelineruns.michelangelo.uber.com/drain"
    else "triggerruns.michelangelo.uber.com/drain"
  }

  predicate HasToken(o: Object) {
    "cascade.michelangelo.uber.com/drain-counted" in o.annotations
    && o.annotations["cascade.michelangelo.uber.com/drain-counted"] == "true"
  }

  /** Spec.Kill for a PipelineRun, and the token. */
  function WithToken(kind: Kind, o: Object): Object {
    o.(kill := o.kill || kind.PipelineRun?,
       annotations := o.annotations["cascade.michelangelo.uber.com/drain-counted" := "true"])
  }

  /** Without the token and our finalizer; immutable if the kind is retained. */
  function Completed(kind: Kind, storage: bool, o: Object): Object {
    var a := if storage || kind.TriggerRun? then o.annotations["michelangelo/Immutable" := "true"] else o.annotations;
    o.(annotations := a - {"cascade.michelangelo.uber.com/drain-counted"},
       finalizers := o.finalizers - {FinalizerName(kind)})
  }

  /** One more version, or, for a deleted object without finalizers, none. */
  predicate Added(r: Record, n: Object, r': Record) {
    if n.finalizers == {} then r' == r.(present := false) else r' == r.(versions := r.versions + [n])
  }

  predicate Running(status: Status) {
    status.started && !status.terminal
  }

  /** A child that exists, is being deleted since deletedAt, and has our finalizer. */
  predicate Draining(kind: Kind, r: Record, deletedAt: int) {
    && r.Valid() && r.present && r.Current().deletedAt == Some(deletedAt)
    && FinalizerName(kind) in r.Current().finalizers
  }

  lemma Names(kind: Kind, o: Object)
    ensures DrainFinalizer(kind) == FinalizerName(kind)
    ensures IsDrainCounted(o) <==> HasToken(o)
  {
  }

  function FreshPass(kind: Kind, storage: bool, c: Child, status: Status, now: int, outcome: Outcome): Passed
    requires c.record.Valid()
  {
    Pass(kind, storage, c, c.record.Latest(), status, now, outcome, true)
  }

  // ---- The cancel ----

  /** Before the deadline an answered pass on the newest version of a running child without the token stores
      exactly one version, with the token, raises the gauge, asks to be requeued, and reports no error. For either
      kind. */
  lemma CancelGoesThrough(kind: Kind, storage: bool, c: Child, status: Status, now: int, outcome: Outcome,
                          deletedAt: int)
    requires Draining(kind, c.record, deletedAt) && Running(status) && !HasToken(c.record.Current())
    requires now - deletedAt < DAY && outcome.ok && outcome.engine
    ensures var p := FreshPass(kind, storage, c, status, now, outcome);
      && p.child.record == c.record.(versions := c.record.versions + [WithToken(kind, c.record.Current())])
      && HasToken(p.child.record.Current()) && p.gauge == 1 && p.requeue && !p.err
  {
    Names(kind, c.record.Current());
    hide DrainFinalizer, FinalizerName, ProgressCall, MarkKilledCall, FinishCall, Extends, IsDrainCounted;
  }

  // ---- Progress ----

  /** Before the deadline an answered pass on the newest version of a running TriggerRun with the token ends its
      drain: terminal status, then completion; the gauge goes down. */
  lemma TriggerRunFinishes(storage: bool, c: Child, status: Status, now: int, outcome: Outcome, deletedAt: int)
    requires Draining(TriggerRun, c.record, deletedAt) && Running(status) && HasToken(c.record.Current())
    requires now - deletedAt < DAY && outcome.ok && outcome.engine
    ensures var p := FreshPass(TriggerRun, storage, c, status, now, outcome);
      var done := c.record.Current().(status := Status(true, true, outcome.status.detail));
      && Added(c.record.(versions := c.record.versions + [done]), Completed(TriggerRun, storage, done), p.child.record)
      && p.gauge == -1 && !p.requeue && !p.err
  {
    Names(TriggerRun, c.record.Current());
    var done := c.record.Current().(status := Status(true, true, outcome.status.detail));
    var next := c.record.(versions := c.record.versions + [done]);
    KillIsStored(c, status, outcome);
    hide DrainFinalizer, FinalizerName, MarkKilledCall, RequestCancelCall, ProgressCall, Extends, Lookup;
    hide UpdateStatus, Completed, Drained, Update;
    CompletionGoesThrough(TriggerRun, storage, ProgressCall(TriggerRun, c, c.record.Latest(), status, outcome).child);
  }

  lemma KillIsStored(c: Child, status: Status, outcome: Outcome)
    requires c.record.Valid() && c.record.present && c.record.Current().finalizers != {}
    requires outcome.ok && outcome.engine
    ensures var next := c.record.(versions := c.record.versions
                                    + [c.record.Current().(status := Status(true, true, outcome.status.detail))]);
      var p := ProgressCall(TriggerRun, c, c.record.Latest(), status, outcome);
      p.child.record == next && p.pc == Finishing(next.Latest())
  {
  }

  /** A PipelineRun's drain ends exactly when the engine reports a terminal status; until then the pass persists what
      the engine reports, if it is news, and asks to be requeued. */
  lemma PipelineRunFinishesIff(storage: bool, c: Child, status: Status, now: int, outcome: Outcome, deletedAt: int)
    requires Draining(PipelineRun, c.record, deletedAt) && Running(status) && HasToken(c.record.Current())
    requires now - deletedAt < DAY && outcome.ok && outcome.engine
    ensures var p := FreshPass(PipelineRun, storage, c, status, now, outcome);
      var o := c.record.Current();
      var news := o.(status := outcome.status);
      var r := if outcome.status == status then c.record else c.record.(versions := c.record.versions + [news]);
      && !p.err
      && (outcome.status.terminal ==> Added(r, Completed(PipelineRun, storage, r.Current()), p.child.record)
                                      && p.gauge == -1 && !p.requeue)
      && (!outcome.status.terminal ==> p.child.record == r && p.gauge == 0 && p.requeue)
      && (outcome.status.terminal <==> Released(PipelineRun, p.child.record))
  {
    var o := c.record.Current();
    Names(PipelineRun, o);
    var next := c.record.(versions := c.record.versions + [o.(status := outcome.status)]);
    hide DrainFinalizer, FinalizerName, MarkKilledCall, RequestCancelCall, Extends, Lookup;
    assert UpdateStatus(c.record, c.record.Latest(), outcome.status) == Some(next);
    CompletionGoesThrough(PipelineRun, storage, c);
    CompletionGoesThrough(PipelineRun, storage, c.(record := next));
  }

  /** While the engine reports a running PipelineRun, a pass is requeued exactly if the report is no news or can be
      stored, and is an error otherwise. */
  lemma PipelineRunWaitsIff(storage: bool, c: Child, base: nat, status: Status, now: int, outcome: Outcome,
                            finishOk: bool, deletedAt: int)
    requires base < |c.record.versions| && c.record.versions[base].deletedAt == Some(deletedAt)
    requires FinalizerName(PipelineRun) in c.record.versions[base].finalizers && HasToken(c.record.versions[base])
    requires Running(status) && now - deletedAt < DAY && outcome.engine && !outcome.status.terminal
    ensures var p := Pass(PipelineRun, storage, c, base, status, now, outcome, finishOk);
      var storable := outcome.ok && c.record.present && base == |c.record.versions| - 1;
      && (p.requeue <==> outcome.status == status || storable) && (p.err <==> !p.requeue) && p.gauge == 0
  {
    Names(PipelineRun, c.record.versions[base]);
    hide DrainFinalizer, FinalizerName, MarkKilledCall, RequestCancelCall, FinishCall, Extends, Lookup;
  }

  /** Gone, or without our finalizer. */
  predicate Released(kind: Kind, r: Record) {
    r.Valid() && (!r.present || FinalizerName(kind) !in r.Current().finalizers)
  }

  /** An answered completion of the newest version stores exactly the completed object, and the gauge goes down
      exactly if the token was there. */
  lemma CompletionGoesThrough(kind: Kind, storage: bool, c: Child)
    requires c.record.Valid() && c.record.present && c.record.Current().deletedAt.Some?
    ensures var o := c.record.Current();
      var f := FinishCall(kind, storage, c, c.record.Latest(), true);
      && Added(c.record, Completed(kind, storage, o), f.child.record) && Released(kind, f.child.record)
      && f.pc == (if HasToken(o) then CountDown else Idle)
    ensures Update(c.record, c.record.Latest(), Drained(kind, storage, c.record.Current())).Some?
  {
    Names(kind, c.record.Current());
    hide DrainFinalizer, FinalizerName;
  }

  // ---- Children with nothing to cancel ----

  /** Terminal, or active past the deadline: completed at once. */
  lemma DoneOrLateCompletes(kind: Kind, storage: bool, c: Child, status: Status, now: int, outcome: Outcome,
                            deletedAt: int)
    requires Draining(kind, c.record, deletedAt) && (status.terminal || now - deletedAt >= DAY)
    ensures var p := FreshPass(kind, storage, c, status, now, outcome);
      && Added(c.record, Completed(kind, storage, c.record.Current()), p.child.record)
      && p.gauge == (if HasToken(c.record.Current()) then -1 else 0) && !p.requeue && !p.err
      && (p.child.trail.forced <==> c.trail.forced || !status.terminal)
  {
    Names(kind, c.record.Current());
    hide DrainFinalizer, FinalizerName, ProgressCall, MarkKilledCall, RequestCancelCall, Extends, Lookup;
    CompletionGoesThrough(kind, storage, c);
    CompletionGoesThrough(kind, storage, c.(trail := c.trail.(forced := true)));
  }

  /** Active, but the workflow never started: killed and completed, without a cancel. */
  lemma NeverStartedCompletes(kind: Kind, storage: bool, c: Child, status: Status, now: int, outcome: Outcome,
                              deletedAt: int)
    requires Draining(kind, c.record, deletedAt) && !status.terminal && !status.started
    requires now - deletedAt < DAY && outcome.ok
    ensures var p := FreshPass(kind, storage, c, status, now, outcome);
      var killed := c.record.Current().(status := status.(terminal := true));
      && Added(c.record.(versions := c.record.versions + [killed]), Completed(kind, storage, killed), p.child.record)
      && p.gauge == (if HasToken(c.record.Current()) then -1 else 0) && !p.requeue && !p.err
  {
    Names(kind, c.record.Current());
    KilledIsStored(c, status, outcome);
    var killed := c.record.Current().(status := status.(terminal := true));
    var next := c.record.(versions := c.record.versions + [killed]);
    hide DrainFinalizer, FinalizerName, ProgressCall, RequestCancelCall, MarkKilledCall, Extends, Lookup;
    hide UpdateStatus, Completed, Drained, Update;
    CompletionGoesThrough(kind, storage, c.(record := next));
  }

  lemma KilledIsStored(c: Child, status: Status, outcome: Outcome)
    requires c.record.Valid() && c.record.present && c.record.Current().finalizers != {} && outcome.ok
    ensures var next := c.record.(versions := c.record.versions
                                    + [c.record.Current().(status := status.(terminal := true))]);
      MarkKilledCall(c, c.record.Latest(), status, outcome) == Call(c.(record := next), Finishing(next.Latest()))
  {
  }

  // ---- Passes that achieve nothing ----

  /** A pass on a version that is no longer the newest changes no object and no gauge. */
  lemma StalePassChangesNothing(kind: Kind, storage: bool, c: Child, base: nat, status: Status, now: int,
                                outcome: Outcome, finishOk: bool)
    requires c.record.Valid() && base < |c.record.versions| && (!c.record.present || base < c.record.Latest())
    ensures var p := Pass(kind, storage, c, base, status, now, outcome, finishOk);
      p.child.record == c.record && p.gauge == 0
  {
    hide DrainFinalizer, Extends, Lookup;
  }

  /** Without the finalizer there is nothing to do; a pass in which nobody answers stores nothing and moves no
      gauge, and reports an error if there was something to do. */
  lemma SilenceChangesNothing(kind: Kind, storage: bool, c: Child, status: Status, now: int, outcome: Outcome)
    requires c.record.Valid() && !outcome.ok && !outcome.engine
    ensures var p := Pass(kind, storage, c, c.record.Latest(), status, now, outcome, false);
      && p.child.record == c.record && p.gauge == 0 && !p.requeue
      && (p.err <==> FinalizerName(kind) in c.record.Current().finalizers)
  {
    Names(kind, c.record.Current());
    hide DrainFinalizer, FinalizerName, Extends, Lookup;
  }

  /** The gauge moves by one at most: up only on a version without the token and with a requeue, down only on one
      with the token; a pass with an error moves nothing. */
  lemma GaugeMovesOnce(kind: Kind, storage: bool, c: Child, base: nat, status: Status, now: int, outcome: Outcome,
                       finishOk: bool)
    requires base < |c.record.versions|
    ensures var p := Pass(kind, storage, c, base, status, now, outcome, finishOk);
      && -1 <= p.gauge <= 1 && (p.err ==> p.gauge == 0 && !p.requeue)
      && (p.gauge == 1 ==> p.requeue && !HasToken(c.record.versions[base]))
      && (p.gauge == -1 ==> HasToken(c.record.versions[base]))
  {
    TokenSeen(kind, c, base, status, now, outcome);
    CallExtends(kind, c, base, status, now, outcome);
    Names(kind, c.record.versions[base]);
    hide DrainFinalizer, DecideCall, Extends, Drained, Update, HasToken, IsDrainCounted, ProgressWaits;
  }

  /** A call that is to raise the gauge found no token; one that is to finish the drain keeps it. */
  lemma TokenSeen(kind: Kind, c: Child, base: nat, status: Status, now: int, outcome: Outcome)
    requires base < |c.record.versions|
    ensures var d := DecideCall(kind, c, base, status, now, outcome);
      && (d.pc.CountUp? ==> !IsDrainCounted(c.record.versions[base]))
      && (d.pc.Finishing? ==> d.pc.base < |d.child.record.versions|
                              && (IsDrainCounted(d.child.record.versions[d.pc.base])
                                  <==> IsDrainCounted(c.record.versions[base])))
  {
    hide DrainFinalizer, Cancelled, Lookup;
  }

  /** Nothing keeps a pass from happening: a worker that is idle may take up any child that is being deleted, in its
      newest version and with its stored status, and what follows is the pass; and time goes by. */
  lemma PassesHappen(s: Cluster, w: nat, uid: Uid, outcome: Outcome, finishOk: bool, elapsed: nat)
    requires uid in s.children && s.children[uid].record.Valid() && s.children[uid].record.Current().deletedAt.Some?
    requires w !in s.workers || s.workers[w].pc.Idle?
    ensures var r := s.children[uid].record;
      var t := Run(s, PassActions(w, uid, r.Latest(), r.Current().status, outcome, finishOk));
      var p := Pass(s.kind, s.storage, s.children[uid], r.Latest(), r.Current().status, s.now, outcome, finishOk);
      uid in t.children && t.children[uid] == p.child && t.gauge == s.gauge + p.gauge && IsIdle(t, w)
    ensures Step(s, Tick(elapsed)) == s.(now := s.now + elapsed)
  {
    hide Pass, Run, PassActions;
    var r := s.children[uid].record;
    PassIsARun(s, w, uid, r.Latest(), r.Current().status, outcome, finishOk);
  }

  // ---- Two passes in a row ----

  /** A running TriggerRun is drained by two answered passes. */
  lemma TriggerRunTakesTwoPasses(storage: bool, c: Child, status: Status, now: int, later: int, outcome: Outcome,
                                 deletedAt: int)
    requires Draining(TriggerRun, c.record, deletedAt) && Running(status) && !HasToken(c.record.Current())
    requires now - deletedAt < DAY && later - deletedAt < DAY && outcome.ok && outcome.engine
    ensures var p := FreshPass(TriggerRun, storage, c, status, now, outcome);
      p.child.record.Valid()
      && var q := FreshPass(TriggerRun, storage, p.child, status, later, outcome);
      && Released(TriggerRun, q.child.record) && p.gauge + q.gauge == 0 && !p.err && !q.err
  {
    hide Pass, Extends;
    CancelGoesThrough(TriggerRun, storage, c, status, now, outcome, deletedAt);
    var p := FreshPass(TriggerRun, storage, c, status, now, outcome);
    TriggerRunFinishes(storage, p.child, status, later, outcome, deletedAt);
  }
}
