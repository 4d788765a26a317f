/** How a drain can end: the drain finalizer of a started, running child goes only after one cancel
    followed by a terminal Progress, or after ForceKill past the timeout; then nothing more happens. */
module DrainHistory {
  import opened Wrappers
  import opened KubeObjects
  import opened CascadeDrain
  import opened DrainGauge

  /** The drain is over for this child: it is gone, or being deleted without our finalizer. */
  predicate DrainOver(kind: Kind, r: Record) {
    r.Valid() && (!r.present || (r.Current().deletedAt.Some? && DrainFinalizer(kind) !in r.Current().finalizers))
  }

  // ---- Nothing happens afterwards ----

  lemma CallAfterDrain(kind: Kind, c: Child, base: nat, status: Status, now: int, outcome: Outcome)
    requires DrainOver(kind, c.record) && base < |c.record.versions|
    ensures var call := DecideCall(kind, c, base, status, now, outcome);
      call.child.record == c.record && call.child.trail.cancels == c.trail.cancels
  {
  }

  lemma FinishAfterDrain(kind: Kind, storage: bool, c: Child, base: nat, ok: bool)
    requires DrainOver(kind, c.record) && PcOk(kind, c.record, Finishing(base))
    ensures FinishCall(kind, storage, c, base, ok).child == c
  {
  }

  /** A finished drain stays finished, and only others change the object from then on: stale workers
      fail their optimistic lock, up-to-date ones find nothing to do. */
  lemma DrainedIsFinal(s: Cluster, a: Action, uid: Uid)
    requires Inv(s) && uid in s.children && DrainOver(s.kind, s.children[uid].record)
    ensures var t := Step(s, a);
      && uid in t.children && DrainOver(s.kind, t.children[uid].record)
      && (!a.Outside? ==> t.children[uid].record == s.children[uid].record
                          && t.children[uid].trail.cancels == s.children[uid].trail.cancels
                          && t.children[uid].trail.counted == s.children[uid].trail.counted)
  {
    hide ChildOk, DecideCall, FinishCall, IsDrainCounted, DrainFinalizer;
    if Enabled(s, a) && a.Decide? && s.workers[a.worker].uid == uid {
      var k := s.workers[a.worker];
      CallAfterDrain(s.kind, s.children[uid], k.pc.base, k.pc.status, s.now, a.outcome);
      DecideCounts(s.kind, s.children[uid], k.pc.base, k.pc.status, s.now, a.outcome);
    } else if Enabled(s, a) && a.Finish? && s.workers[a.worker].uid == uid {
      FinishAfterDrain(s.kind, s.storage, s.children[uid], s.workers[a.worker].pc.base, a.ok);
    }
  }

  lemma DecideCounts(kind: Kind, c: Child, base: nat, status: Status, now: int, outcome: Outcome)
    requires base < |c.record.versions|
    ensures DecideCall(kind, c, base, status, now, outcome).child.trail.counted == c.trail.counted
  {
  }

  // ---- How it ends ----

  /** The child has just been marked for deletion as version `first`, active, with our finalizer; no worker
      has read that version yet. */
  predicate DrainBegins(s: Cluster, uid: Uid, first: nat) {
    && uid in s.children
    && var c := s.children[uid];
    && c.record.Valid() && c.record.present && first == c.record.Latest()
    && c.record.Current().deletedAt.Some? && c.record.Current().deletedAt.value <= s.now
    && DrainFinalizer(s.kind) in c.record.Current().finalizers
    && !c.record.Current().status.terminal && c.record.Current().status.started
    && (forall k :: 0 <= k < first ==> c.record.versions[k].deletedAt.None?)
    && c.trail == Trail(0, 0, false, false)
    && (forall w :: w in s.workers && s.workers[w].uid == uid ==> s.workers[w].pc.Idle?)
  }

  /** Along the run, only the drain writes the child's status, and the workflow counts as started. */
  predicate StatusLeftAlone(s: Cluster, a: Action, uid: Uid) {
    && (Enabled(s, a) && a.Outside? && a.uid == uid && a.next.present ==>
          a.next.Valid() && a.next.Current().status == s.children[uid].record.Current().status)
    && (Enabled(s, a) && a.Decide? && s.workers[a.worker].uid == uid ==> a.outcome.status.started)
  }

  predicate StatusLeftAloneRun(s: Cluster, actions: seq<Action>, uid: Uid)
    decreases |actions|
  {
    actions != [] ==> StatusLeftAlone(s, actions[0], uid) && StatusLeftAloneRun(Step(s, actions[0]), actions[1..], uid)
  }

  predicate EndedProperly(t: Trail) {
    t.forced || (t.cancels == 1 && t.terminalProgress)
  }

  predicate VersionsOk(r: Record, t: Trail, first: nat, deletedAt: int) {
    && first < |r.versions|
    && (forall k :: 0 <= k < first ==> r.versions[k].deletedAt.None?)
    && (forall k :: first <= k < |r.versions| ==>
          && r.versions[k].deletedAt == Some(deletedAt) && r.versions[k].status.started
          && (r.versions[k].status.terminal ==> t.terminalProgress))
  }

  predicate HistoryOk(kind: Kind, c: Child, now: int, first: nat, deletedAt: int) {
    && ChildOk(kind, c) && VersionsOk(c.record, c.trail, first, deletedAt)
    && (c.trail.terminalProgress ==> c.trail.cancels == 1)
    && (c.trail.forced ==> now - deletedAt >= CASCADE_DRAIN_TIMEOUT)
    && (!c.record.present || DrainFinalizer(kind) !in c.record.Current().finalizers ==> EndedProperly(c.trail))
  }

  /** A worker that is about to finish does so for a reason. */
  predicate ReasonOk(kind: Kind, c: Child, pc: Pc) {
    && PcOk(kind, c.record, pc)
    && (pc.Deciding? ==> pc.status == c.record.versions[pc.base].status)
    && (pc.Finishing? ==> c.trail.forced || c.record.versions[pc.base].status.terminal)
  }

  predicate History(s: Cluster, uid: Uid, first: nat, deletedAt: int) {
    && Inv(s) && uid in s.children
    && HistoryOk(s.kind, s.children[uid], s.now, first, deletedAt)
    && (forall w :: w in s.workers && s.workers[w].uid == uid ==> ReasonOk(s.kind, s.children[uid], s.workers[w].pc))
  }

  /** The trail only grows. */
  predicate TrailGrows(t: Trail, t': Trail) {
    (t.forced ==> t'.forced) && (t.terminalProgress ==> t'.terminalProgress)
  }

  predicate CallHistoryOk(kind: Kind, c: Child, call: Call, now: int, first: nat, deletedAt: int) {
    && HistoryOk(kind, call.child, now, first, deletedAt) && ReasonOk(kind, call.child, call.pc)
    && TrailGrows(c.trail, call.child.trail) && Extends(c.record, call.child.record)
  }

  lemma Appended(r: Record, n: Object, t: Trail, t': Trail, first: nat, deletedAt: int)
    requires VersionsOk(r, t, first, deletedAt) && TrailGrows(t, t')
    requires n.deletedAt == Some(deletedAt) && n.status.started && (n.status.terminal ==> t'.terminalProgress)
    ensures VersionsOk(r.(versions := r.versions + [n]), t', first, deletedAt)
  {
  }

  lemma ProgressHistory(kind: Kind, c: Child, base: nat, status: Status, outcome: Outcome, now: int, first: nat,
                        deletedAt: int)
    requires HistoryOk(kind, c, now, first, deletedAt) && PcOk(kind, c.record, Finishing(base))
    requires IsDrainCounted(c.record.versions[base]) && !status.terminal && outcome.status.started
    ensures CallHistoryOk(kind, c, ProgressCall(kind, c, base, status, outcome), now, first, deletedAt)
  {
    hide DrainFinalizer, VersionsOk, Lookup;
    ProgressOk(kind, c, base, status, outcome);
    var next := if kind == TriggerRun then Status(true, true, outcome.status.detail) else outcome.status;
    var r := UpdateStatus(c.record, base, next);
    if r.Some? {
      UpdateStatusEffect(c.record, base, next);
      var trail := c.trail.(terminalProgress := c.trail.terminalProgress || next.terminal);
      LatestVersion(c.record, c.trail, first, deletedAt);
      Appended(c.record, c.record.Current().(status := next), c.trail, trail, first, deletedAt);
    }
  }

  /** A Progress is recorded as terminal only after the engine has answered (for a TriggerRun: DeleteTrigger
      has succeeded) and the terminal status stands on the object. */
  lemma TerminalProgressIsPersisted(kind: Kind, c: Child, base: nat, status: Status, outcome: Outcome)
    requires c.record.Valid() && c.record.present && c.record.Current().finalizers != {}
    ensures var call := ProgressCall(kind, c, base, status, outcome);
      call.child.trail.terminalProgress && !c.trail.terminalProgress ==>
        && outcome.engine && call.child.record.Valid() && call.child.record.present
        && call.child.record.Current().status.terminal
        && call.child.record.Current() == c.record.Current().(status := call.child.record.Current().status)
  {
    var next := if kind == TriggerRun then Status(true, true, outcome.status.detail) else outcome.status;
    UpdateStatusEffect(c.record, base, next);
  }

  lemma LatestVersion(r: Record, t: Trail, first: nat, deletedAt: int)
    requires VersionsOk(r, t, first, deletedAt)
    ensures r.Current().deletedAt == Some(deletedAt) && r.Current().status.started
    ensures r.Current().status.terminal ==> t.terminalProgress
  {
  }

  lemma CancelHistory(kind: Kind, c: Child, base: nat, outcome: Outcome, now: int, first: nat, deletedAt: int)
    requires HistoryOk(kind, c, now, first, deletedAt) && PcOk(kind, c.record, Finishing(base))
    requires !IsDrainCounted(c.record.versions[base])
    ensures CallHistoryOk(kind, c, RequestCancelCall(kind, c, base, outcome), now, first, deletedAt)
  {
    hide VersionsOk, Lookup, MarkDrainCounted, DrainFinalizer, Update;
    RequestCancelOk(kind, c, base, outcome);
    var o := Cancelled(kind, c.record.versions[base]);
    UpdateEffect(c.record, base, o);
    if Update(c.record, base, o).Some? {
      LatestVersion(c.record, c.trail, first, deletedAt);
      var n := o.(status := c.record.Current().status, deletedAt := c.record.Current().deletedAt);
      Appended(c.record, n, c.trail, c.trail.(cancels := c.trail.cancels + 1), first, deletedAt);
    }
  }

  lemma DecideHistory(kind: Kind, c: Child, base: nat, status: Status, now: int, outcome: Outcome, first: nat,
                      deletedAt: int)
    requires HistoryOk(kind, c, now, first, deletedAt) && ReasonOk(kind, c, Deciding(base, status))
    requires outcome.status.started
    ensures CallHistoryOk(kind, c, DecideCall(kind, c, base, status, now, outcome), now, first, deletedAt)
  {
    hide ProgressCall, MarkKilledCall, RequestCancelCall, ChildOk, Lookup, DrainFinalizer;
    var plan := PlanFor(c.record.versions[base], status, DrainFinalizer(kind), now);
    if plan == RequestCancel { CancelHistory(kind, c, base, outcome, now, first, deletedAt); }
    else if plan == Progress { ProgressHistory(kind, c, base, status, outcome, now, first, deletedAt); }
    else if plan == Timeout { ForcedOk(kind, c); }
  }

  lemma ForcedOk(kind: Kind, c: Child)
    requires ChildOk(kind, c)
    ensures ChildOk(kind, c.(trail := c.trail.(forced := true)))
  {
  }

  lemma FinishHistory(kind: Kind, storage: bool, c: Child, base: nat, ok: bool, now: int, first: nat, deletedAt: int)
    requires HistoryOk(kind, c, now, first, deletedAt) && ReasonOk(kind, c, Finishing(base))
    ensures CallHistoryOk(kind, c, FinishCall(kind, storage, c, base, ok), now, first, deletedAt)
  {
    hide Lookup, ClearDrainCounted, DrainFinalizer;
    FinishOk(kind, storage, c, base, ok);
    var o := c.record.versions[base];
    UpdateEffect(c.record, base, Drained(kind, storage, o));
  }

  lemma OutsideHistory(kind: Kind, c: Child, r: Record, now: int, first: nat, deletedAt: int)
    requires HistoryOk(kind, c, now, first, deletedAt) && Respects(kind, c.record, r)
    requires r.present ==> r.Valid() && r.Current().status == c.record.Current().status
    ensures HistoryOk(kind, c.(record := r), now, first, deletedAt) && Extends(c.record, r)
  {
    hide Lookup, IsDrainCounted, DrainFinalizer;
    OutsideOk(kind, c, r);
    if r.present {
      LatestVersion(c.record, c.trail, first, deletedAt);
      Appended(c.record, r.Current(), c.trail, c.trail, first, deletedAt);
      assert r.versions == c.record.versions + [r.Current()];
    }
  }

  lemma ReasonStays(kind: Kind, c: Child, c': Child, pc: Pc)
    requires ReasonOk(kind, c, pc) && Extends(c.record, c'.record) && TrailGrows(c.trail, c'.trail)
    ensures ReasonOk(kind, c', pc)
  {
    PcStays(kind, c.record, c'.record, pc);
    if pc.Deciding? || pc.Finishing? {
      assert c'.record.versions[pc.base] == c'.record.versions[..|c.record.versions|][pc.base];
    }
  }

  // ---- Steps and runs ----

  lemma PerformHistory(s: Cluster, w: nat, call: Call, uid: Uid, first: nat, deletedAt: int)
    requires History(s, uid, first, deletedAt) && w in s.workers && s.workers[w].uid == uid
    requires CallHistoryOk(s.kind, s.children[uid], call, s.now, first, deletedAt)
    requires Inv(Perform(s, w, call))
    ensures History(Perform(s, w, call), uid, first, deletedAt)
  {
    hide Inv, ReasonOk, HistoryOk, Extends, TrailGrows;
    var t := Perform(s, w, call);
    forall v | v in t.workers && t.workers[v].uid == uid
      ensures ReasonOk(t.kind, t.children[uid], t.workers[v].pc)
    {
      if v != w { ReasonStays(s.kind, s.children[uid], call.child, s.workers[v].pc); }
    }
  }

  lemma HistoryStep(s: Cluster, a: Action, uid: Uid, first: nat, deletedAt: int)
    requires History(s, uid, first, deletedAt) && GaugeExact(s) && StatusLeftAlone(s, a, uid)
    ensures History(Step(s, a), uid, first, deletedAt) && GaugeExact(Step(s, a))
  {
    hide GaugeExact, HistoryOk, ReasonOk, CallHistoryOk, DecideCall, FinishCall;
    hide Perform, ChildOk, PcOk, StatusLeftAlone;
    StepKeeps(s, a);
    if Enabled(s, a) {
      var k := if a.Decide? || a.Finish? then s.workers[a.worker] else Worker(uid, Idle);
      if a.Read? && a.uid == uid {
        ReadHistory(s, a.worker, uid, a.version, a.seen, first, deletedAt);
      } else if a.Decide? && k.uid == uid {
        StartedOutcome(s, a, uid);
        DecideHistory(s.kind, s.children[uid], k.pc.base, k.pc.status, s.now, a.outcome, first, deletedAt);
        PerformHistory(s, a.worker, DecideCall(s.kind, s.children[uid], k.pc.base, k.pc.status, s.now, a.outcome),
                       uid, first, deletedAt);
      } else if a.Finish? && k.uid == uid {
        FinishHistory(s.kind, s.storage, s.children[uid], k.pc.base, a.ok, s.now, first, deletedAt);
        PerformHistory(s, a.worker, FinishCall(s.kind, s.storage, s.children[uid], k.pc.base, a.ok),
                       uid, first, deletedAt);
      } else if a.Outside? && a.uid == uid {
        OutsideStepHistory(s, a, uid, first, deletedAt);
      } else if a.Count? {
        IdleReason(s.kind, s.children[uid]);
      } else {
        OtherStepHistory(s, a, uid, first, deletedAt);
      }
    }
  }

  lemma IdleReason(kind: Kind, c: Child)
    ensures ReasonOk(kind, c, Idle)
  {
  }

  lemma StartedOutcome(s: Cluster, a: Action, uid: Uid)
    requires StatusLeftAlone(s, a, uid) && Enabled(s, a) && a.Decide? && s.workers[a.worker].uid == uid
    ensures a.outcome.status.started
  {
  }

  lemma ReadHistory(s: Cluster, w: nat, uid: Uid, version: nat, seen: Status, first: nat, deletedAt: int)
    requires History(s, uid, first, deletedAt) && Enabled(s, Read(w, uid, version, seen))
    requires Inv(Step(s, Read(w, uid, version, seen)))
    ensures History(Step(s, Read(w, uid, version, seen)), uid, first, deletedAt)
  {
    hide Inv, ChildOk;
  }

  lemma OutsideStepHistory(s: Cluster, a: Action, uid: Uid, first: nat, deletedAt: int)
    requires History(s, uid, first, deletedAt) && StatusLeftAlone(s, a, uid)
    requires Enabled(s, a) && a.Outside? && a.uid == uid && Inv(Step(s, a))
    ensures History(Step(s, a), uid, first, deletedAt)
  {
    hide Inv, HistoryOk, ReasonOk, Respects, Extends;
    OutsideHistory(s.kind, s.children[uid], a.next, s.now, first, deletedAt);
    var t := Step(s, a);
    forall v | v in t.workers && t.workers[v].uid == uid
      ensures ReasonOk(t.kind, t.children[uid], t.workers[v].pc)
    {
      ReasonStays(s.kind, s.children[uid], t.children[uid], s.workers[v].pc);
    }
  }

  /** Steps on other children, and time. */
  lemma OtherStepHistory(s: Cluster, a: Action, uid: Uid, first: nat, deletedAt: int)
    requires History(s, uid, first, deletedAt) && Enabled(s, a) && Inv(Step(s, a))
    requires a.Tick? || a.Create? || (a.Outside? && a.uid != uid) || (a.Read? && a.uid != uid)
      || ((a.Decide? || a.Finish?) && s.workers[a.worker].uid != uid)
    ensures History(Step(s, a), uid, first, deletedAt)
  {
    hide Inv, ChildOk, VersionsOk, ReasonOk, DecideCall, FinishCall, Respects;
  }

  lemma {:induction false} HistoryRun(s: Cluster, actions: seq<Action>, uid: Uid, first: nat, deletedAt: int)
    requires History(s, uid, first, deletedAt) && GaugeExact(s) && StatusLeftAloneRun(s, actions, uid)
    ensures History(Run(s, actions), uid, first, deletedAt)
    decreases |actions|
  {
    hide History, GaugeExact, Step, StatusLeftAlone;
    if actions != [] {
      HistoryStep(s, actions[0], uid, first, deletedAt);
      HistoryRun(Step(s, actions[0]), actions[1..], uid, first, deletedAt);
    }
  }

  /** Drain history. From the moment an active child is marked for deletion, in every state of every run
      in which only the drain writes its status: at most one cancel has committed, and if the drain is
      over then either exactly one cancel committed and a Progress then persisted a terminal status (for a
      TriggerRun only after DeleteTrigger succeeded), or ForceKill was called at least 24 hours after the
      deletion. */
  lemma HowDrainsEnd(s: Cluster, actions: seq<Action>, uid: Uid, first: nat)
    requires Inv(s) && GaugeExact(s) && DrainBegins(s, uid, first) && StatusLeftAloneRun(s, actions, uid)
    ensures var t := Run(s, actions);
      && uid in t.children
      && var c := t.children[uid];
      && c.trail.cancels <= 1
      && (DrainOver(s.kind, c.record) ==> EndedProperly(c.trail))
      && (c.trail.forced ==> t.now - s.children[uid].record.Current().deletedAt.value >= CASCADE_DRAIN_TIMEOUT)
  {
    var deletedAt := s.children[uid].record.Current().deletedAt.value;
    BeginsHistory(s, uid, first);
    HistoryRun(s, actions, uid, first, deletedAt);
    RunKeeps(s, actions);
  }

  lemma BeginsHistory(s: Cluster, uid: Uid, first: nat)
    requires Inv(s) && DrainBegins(s, uid, first)
    ensures History(s, uid, first, s.children[uid].record.Current().deletedAt.value)
  {
    hide Inv;
    InvChild(s, uid);
  }

  lemma InvChild(s: Cluster, uid: Uid)
    requires Inv(s) && uid in s.children
    ensures ChildOk(s.kind, s.children[uid])
  {
  }
}
