/** No drain wedges, over whole runs: however workers, stale reads, failures and everybody else
    interleave, only so many passes can end without error and leave a drain unfinished. */
module DrainProgress {
  import opened Wrappers
  import opened KubeObjects
  import opened CascadeDrain
  import opened DrainGauge
  import opened DrainHistory
  import opened DrainPass

  // ---- What the server keeps about a child ----

  /** Once deleted, a child stays so and only loses finalizers, through all its versions. */
  predicate Shaped(r: Record) {
    forall j, k :: 0 <= j <= k < |r.versions| ==> ServerAllows(r.versions[j], r.versions[k])
  }

  predicate AllShaped(s: Cluster) {
    forall uid :: uid in s.children ==> Shaped(s.children[uid].record)
  }

  predicate SameOrStep(r: Record, r': Record) {
    r == r' || ServerStep(r, r')
  }

  lemma ShapedStep(r: Record, r': Record)
    requires r.Valid() && Shaped(r) && SameOrStep(r, r')
    ensures Shaped(r')
  {
    if |r'.versions| == |r.versions| + 1 {
      var last := |r.versions|;
      forall j, k | 0 <= j <= k < |r'.versions| ensures ServerAllows(r'.versions[j], r'.versions[k]) {
        assert forall i :: 0 <= i < last ==> r'.versions[i] == r'.versions[..last][i] == r.versions[i];
        if k == last && j < last { assert ServerAllows(r.versions[j], r.versions[last - 1]); }
      }
    }
  }

  /** A drain call makes at most one step of the server. */
  lemma CallsStep(kind: Kind, storage: bool, c: Child, base: nat, status: Status, now: int, outcome: Outcome, ok: bool)
    requires c.record.Valid() && base < |c.record.versions|
    ensures SameOrStep(c.record, DecideCall(kind, c, base, status, now, outcome).child.record)
    ensures SameOrStep(c.record, FinishCall(kind, storage, c, base, ok).child.record)
  {
    hide Lookup, ServerStep, Update, UpdateStatus, DrainFinalizer;
    var o := c.record.versions[base];
    UpdateEffect(c.record, base, Drained(kind, storage, o));
    UpdateEffect(c.record, base, Cancelled(kind, o));
    UpdateStatusEffect(c.record, base, status.(terminal := true));
    var next := if kind == TriggerRun then Status(true, true, outcome.status.detail) else outcome.status;
    UpdateStatusEffect(c.record, base, next);
  }

  /** Any step of the machine does at most one step of the server on a child. */
  lemma StepOnChild(s: Cluster, a: Action, uid: Uid)
    requires Inv(s) && uid in s.children
    ensures uid in Step(s, a).children
    ensures s.children[uid].record.Valid() && SameOrStep(s.children[uid].record, Step(s, a).children[uid].record)
  {
    InvChild(s, uid);
    hide ChildOk, DecideCall, FinishCall, ServerStep, KeepsFinalizer, DrainFinalizer;
    if Enabled(s, a) && (a.Decide? || a.Finish?) && s.workers[a.worker].uid == uid {
      var pc := s.workers[a.worker].pc;
      var seen := if pc.Deciding? then pc.status else Status(false, false, 0);
      var out := if a.Decide? then a.outcome else Outcome(false, false, Status(false, false, 0));
      CallsStep(s.kind, s.storage, s.children[uid], pc.base, seen, s.now, out, a.Finish? && a.ok);
    }
  }

  lemma StepShaped(s: Cluster, a: Action)
    requires Inv(s) && AllShaped(s)
    ensures AllShaped(Step(s, a))
  {
    var t := Step(s, a);
    forall uid | uid in t.children ensures Shaped(t.children[uid].record) {
      if uid in s.children {
        hide Shaped, SameOrStep;
        StepOnChild(s, a, uid);
        ShapedStep(s.children[uid].record, t.children[uid].record);
      } else {
        hide DecideCall, FinishCall, Respects;
        assert a.Create? && |t.children[uid].record.versions| == 1;
      }
    }
  }

  lemma {:induction false} RunShaped(s: Cluster, actions: seq<Action>)
    requires Inv(s) && GaugeExact(s) && AllShaped(s)
    ensures AllShaped(Run(s, actions))
    decreases |actions|
  {
    hide Inv, GaugeExact, AllShaped, Step;
    if actions != [] {
      StepKeeps(s, actions[0]);
      StepShaped(s, actions[0]);
      RunShaped(Step(s, actions[0]), actions[1..]);
    }
  }

  // ---- Passes that end without error ----

  /** At this step a pass over the child ends without error: it found nothing to do, its cancel was
      persisted, its Progress went through with the run still active, or its completion was persisted. */
  predicate EndsPass(s: Cluster, a: Action, uid: Uid) {
    && Enabled(s, a) && (a.Decide? || a.Finish?) && s.workers[a.worker].uid == uid
    && var c, pc := s.children[uid], s.workers[a.worker].pc;
    && var o := c.record.versions[pc.base];
    if a.Decide? then
      var plan := PlanFor(o, pc.status, DrainFinalizer(s.kind), s.now);
      || plan == Nothing
      || DecideCall(s.kind, c, pc.base, pc.status, s.now, a.outcome).pc == CountUp
      || (plan == Progress && ProgressWaits(s.kind, c, pc.base, pc.status, a.outcome))
    else
      a.ok && Update(c.record, pc.base, Drained(s.kind, s.storage, o)).Some?
  }

  /** When passes over the child end without error along a run. */
  function EndTimes(s: Cluster, actions: seq<Action>, uid: Uid): seq<int>
    decreases |actions|
  {
    if actions == [] then []
    else (if EndsPass(s, actions[0], uid) then [s.now] else []) + EndTimes(Step(s, actions[0]), actions[1..], uid)
  }

  /** The child is being deleted since `deletedAt`, or its drain is over. */
  predicate DeletedSince(kind: Kind, r: Record, deletedAt: int) {
    r.Valid() && (DrainOver(kind, r) || r.Current().deletedAt == Some(deletedAt))
  }

  /** Every deleted version that a worker may hold carries the same time, and a version without our
      finalizer means that the newest is without it. */
  lemma HeldVersion(kind: Kind, r: Record, deletedAt: int, base: nat)
    requires Shaped(r) && r.Valid() && r.Current().deletedAt == Some(deletedAt)
    requires base < |r.versions| && r.versions[base].deletedAt.Some?
    ensures r.versions[base].deletedAt == Some(deletedAt)
    ensures DrainFinalizer(kind) !in r.versions[base].finalizers ==> DrainOver(kind, r)
  {
    assert ServerAllows(r.versions[base], r.versions[|r.versions| - 1]);
  }

  /** A pass that ends without error and leaves the drain unfinished does so before the deadline. */
  lemma EndsBeforeDeadline(s: Cluster, a: Action, uid: Uid, deletedAt: int)
    requires Inv(s) && AllShaped(s) && EndsPass(s, a, uid)
    requires DeletedSince(s.kind, s.children[uid].record, deletedAt)
    requires !DrainOver(s.kind, s.children[uid].record)
    requires uid in Step(s, a).children && !DrainOver(s.kind, Step(s, a).children[uid].record)
    ensures s.now - deletedAt < CASCADE_DRAIN_TIMEOUT
  {
    var c, pc := s.children[uid], s.workers[a.worker].pc;
    InvWorker(s, a.worker);
    HeldVersion(s.kind, c.record, deletedAt, pc.base);
    if a.Decide? {
      hide MarkKilledCall, ProgressCall, RequestCancelCall, ChildOk, Lookup, DrainFinalizer, Shaped;
    } else {
      CommittedFinishEnds(s.kind, s.storage, c, pc.base);
    }
  }

  lemma InvWorker(s: Cluster, w: nat)
    requires Inv(s) && w in s.workers && s.workers[w].uid in s.children
    ensures PcOk(s.kind, s.children[s.workers[w].uid].record, s.workers[w].pc)
    ensures ChildOk(s.kind, s.children[s.workers[w].uid])
  {
    hide ChildOk, PcOk;
  }

  lemma CommittedFinishEnds(kind: Kind, storage: bool, c: Child, base: nat)
    requires c.record.Valid() && base < |c.record.versions| && c.record.versions[base].deletedAt.Some?
    requires Update(c.record, base, Drained(kind, storage, c.record.versions[base])).Some?
    ensures DrainOver(kind, FinishCall(kind, storage, c, base, true).child.record)
  {
    hide Lookup, DrainFinalizer;
    UpdateEffect(c.record, base, Drained(kind, storage, c.record.versions[base]));
  }

  lemma DeletionStays(s: Cluster, a: Action, uid: Uid, deletedAt: int)
    requires Inv(s) && uid in s.children && DeletedSince(s.kind, s.children[uid].record, deletedAt)
    ensures uid in Step(s, a).children && DeletedSince(s.kind, Step(s, a).children[uid].record, deletedAt)
    ensures DrainOver(s.kind, s.children[uid].record) ==> DrainOver(s.kind, Step(s, a).children[uid].record)
    ensures Step(s, a).kind == s.kind && Step(s, a).now >= s.now
  {
    StepOnChild(s, a, uid);
    if DrainOver(s.kind, s.children[uid].record) { DrainedIsFinal(s, a, uid); }
    TimeAdvances(s, a);
    hide Step, Inv, DrainFinalizer;
  }

  lemma TimeAdvances(s: Cluster, a: Action)
    ensures Step(s, a).kind == s.kind && Step(s, a).now >= s.now
  {
    hide DecideCall, FinishCall, Respects, Sees;
  }

  /** All the end times of a run that leaves the drain unfinished lie between the start and the deadline. */
  lemma {:induction false} EndTimesInWindow(s: Cluster, actions: seq<Action>, uid: Uid, deletedAt: int)
    requires Inv(s) && GaugeExact(s) && AllShaped(s) && uid in s.children
    requires DeletedSince(s.kind, s.children[uid].record, deletedAt)
    ensures uid in Run(s, actions).children && Run(s, actions).kind == s.kind
    ensures DrainOver(s.kind, s.children[uid].record) ==> DrainOver(s.kind, Run(s, actions).children[uid].record)
    ensures !DrainOver(s.kind, Run(s, actions).children[uid].record) ==>
      forall t :: t in EndTimes(s, actions, uid) ==> s.now <= t < deletedAt + CASCADE_DRAIN_TIMEOUT
    decreases |actions|
  {
    hide Inv, GaugeExact, AllShaped, Step, DrainOver, DeletedSince, EndsPass;
    if actions != [] {
      StepKeeps(s, actions[0]);
      StepShaped(s, actions[0]);
      DeletionStays(s, actions[0], uid, deletedAt);
      EndTimesInWindow(Step(s, actions[0]), actions[1..], uid, deletedAt);
      if EndsPass(s, actions[0], uid) && !DrainOver(s.kind, Run(s, actions).children[uid].record) {
        EndsBeforeDeadline(s, actions[0], uid, deletedAt);
      }
    }
  }

  lemma FewPassesFit(times: seq<int>, start: int, end: int)
    requires Spaced(times) && end <= start + CASCADE_DRAIN_TIMEOUT
    requires forall t :: t in times ==> start <= t < end
    ensures |times| <= CASCADE_DRAIN_TIMEOUT / DRAIN_REQUEUE_INTERVAL == 8640
  {
    if |times| > 8640 {
      assert times[0] in times && times[8640] in times;
      SpacedAdvance(times, 8640);
    }
  }

  lemma ReachableShaped(start: Cluster, before: seq<Action>)
    requires Initial(start)
    ensures var s := Run(start, before); Inv(s) && GaugeExact(s) && AllShaped(s)
  {
    assert Carriers(start) == {} && PendingUp(start) == {} && PendingDown(start) == {};
    hide Run;
    RunKeeps(start, before);
    RunShaped(start, before);
  }

  /** No drain wedges. Take a child that is being deleted in a reachable state, and any run from there in
      which passes over it that end without error are at least the requeue interval apart. If the drain is
      not over at the end, at most 8640 (24 hours by 10 seconds) passes have ended without error: on stale
      reads or fresh ones, whatever Progress answered, and however many passes failed in between. */
  lemma NoDrainWedges(start: Cluster, before: seq<Action>, actions: seq<Action>, uid: Uid)
    requires Initial(start)
    requires var s := Run(start, before);
      && uid in s.children && s.children[uid].record.Valid() && s.children[uid].record.Current().deletedAt.Some?
      && s.children[uid].record.Current().deletedAt.value <= s.now
      && Spaced(EndTimes(s, actions, uid))
    ensures var s := Run(start, before);
      var t := Run(s, actions);
      && uid in t.children
      && (DrainOver(t.kind, t.children[uid].record)
          || |EndTimes(s, actions, uid)| <= CASCADE_DRAIN_TIMEOUT / DRAIN_REQUEUE_INTERVAL == 8640)
  {
    hide Run, Inv, GaugeExact, AllShaped, EndTimes, DrainOver, Initial, Spaced;
    ReachableShaped(start, before);
    var s := Run(start, before);
    var deletedAt := s.children[uid].record.Current().deletedAt.value;
    EndTimesInWindow(s, actions, uid, deletedAt);
    if !DrainOver(s.kind, Run(s, actions).children[uid].record) {
      FewPassesFit(EndTimes(s, actions, uid), s.now, deletedAt + CASCADE_DRAIN_TIMEOUT);
    }
  }
}
