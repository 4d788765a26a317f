/** The active-drain gauge is exact, the token protects the child, and cancellation is requested once. */
module DrainGauge {
  import opened Wrappers
  import opened KubeObjects
  import opened CascadeDrain

  /** The persisted child carries the drain-counted token. */
  predicate Carries(r: Record) {
    r.Valid() && r.present && IsDrainCounted(r.Current())
  }

  function One(b: bool): nat { if b then 1 else 0 }

  /** The token never stands without the drain finalizer on a deleted object; every committed cancel is
      either still marked by the token or was closed by a CompleteDrain; there is at most one. */
  predicate ChildOk(kind: Kind, c: Child) {
    && c.record.Valid()
    && (Carries(c.record) ==> DrainFinalizer(kind) in c.record.Current().finalizers)
    && c.trail.cancels == c.trail.counted + One(Carries(c.record))
    && c.trail.cancels <= 1
    && (c.trail.cancels > 0 ==> c.record.Current().deletedAt.Some?)
    && (c.trail.counted > 0 ==> !c.record.present || DrainFinalizer(kind) !in c.record.Current().finalizers)
  }

  predicate PcOk(kind: Kind, r: Record, pc: Pc) {
    && (pc.Deciding? ==> pc.base < |r.versions| && r.versions[pc.base].deletedAt.Some?)
    && (pc.Finishing? ==> pc.base < |r.versions| && r.versions[pc.base].deletedAt.Some?
                          && DrainFinalizer(kind) in r.versions[pc.base].finalizers)
  }

  predicate Inv(s: Cluster) {
    && (forall uid :: uid in s.children ==> ChildOk(s.kind, s.children[uid]))
    && (forall w :: w in s.workers ==>
          && (s.workers[w].pc.Idle? || s.workers[w].uid in s.children)
          && (s.workers[w].uid in s.children ==>
                PcOk(s.kind, s.children[s.workers[w].uid].record, s.workers[w].pc)))
  }

  lemma PcStays(kind: Kind, r: Record, r': Record, pc: Pc)
    requires PcOk(kind, r, pc) && Extends(r, r')
    ensures PcOk(kind, r', pc)
  {
    if pc.Deciding? || pc.Finishing? {
      assert r'.versions[pc.base] == r'.versions[..|r.versions|][pc.base];
    }
  }

  // ---- One call ----

  /** What a call of the driver does to the child, and which metric call it leaves pending. */
  predicate CallOk(kind: Kind, c: Child, call: Call) {
    && ChildOk(kind, call.child) && Extends(c.record, call.child.record) && PcOk(kind, call.child.record, call.pc)
    && One(Carries(call.child.record)) + One(call.pc.CountDown?) == One(Carries(c.record)) + One(call.pc.CountUp?)
  }

  lemma StatusCallOk(kind: Kind, c: Child, base: nat, next: Status, trail: Trail)
    requires ChildOk(kind, c) && UpdateStatus(c.record, base, next).Some?
    requires base < |c.record.versions| && c.record.versions[base].deletedAt.Some?
    requires DrainFinalizer(kind) in c.record.versions[base].finalizers
    requires trail.cancels == c.trail.cancels && trail.counted == c.trail.counted
    ensures var r := UpdateStatus(c.record, base, next).value;
      && r.Valid() && CallOk(kind, c, Call(Child(r, trail), Idle))
      && CallOk(kind, c, Call(Child(r, trail), Finishing(r.Latest())))
  {
    UpdateStatusEffect(c.record, base, next);
    var n := c.record.Current().(status := next);
    assert IsDrainCounted(n) == IsDrainCounted(c.record.Current());
  }

  lemma ProgressOk(kind: Kind, c: Child, base: nat, status: Status, outcome: Outcome)
    requires ChildOk(kind, c) && PcOk(kind, c.record, Finishing(base))
    ensures CallOk(kind, c, ProgressCall(kind, c, base, status, outcome))
  {
    hide ChildOk, DrainFinalizer, UpdateStatus;
    var next := if kind == TriggerRun then Status(true, true, outcome.status.detail) else outcome.status;
    if UpdateStatus(c.record, base, next).Some? {
      StatusCallOk(kind, c, base, next, c.trail.(terminalProgress := c.trail.terminalProgress || next.terminal));
    }
  }

  lemma MarkKilledOk(kind: Kind, c: Child, base: nat, status: Status, outcome: Outcome)
    requires ChildOk(kind, c) && PcOk(kind, c.record, Finishing(base))
    ensures CallOk(kind, c, MarkKilledCall(c, base, status, outcome))
  {
    hide ChildOk, DrainFinalizer, UpdateStatus;
    var next := status.(terminal := true);
    if UpdateStatus(c.record, base, next).Some? {
      StatusCallOk(kind, c, base, next, c.trail);
    }
  }

  lemma RequestCancelOk(kind: Kind, c: Child, base: nat, outcome: Outcome)
    requires ChildOk(kind, c) && PcOk(kind, c.record, Finishing(base))
    requires !IsDrainCounted(c.record.versions[base])
    ensures CallOk(kind, c, RequestCancelCall(kind, c, base, outcome))
  {
    UpdateEffect(c.record, base, Cancelled(kind, c.record.versions[base]));
  }

  lemma DecideOk(kind: Kind, c: Child, base: nat, status: Status, now: int, outcome: Outcome)
    requires ChildOk(kind, c) && PcOk(kind, c.record, Deciding(base, status))
    ensures CallOk(kind, c, DecideCall(kind, c, base, status, now, outcome))
  {
    hide ProgressCall, MarkKilledCall, RequestCancelCall, Carries, Lookup;
    var plan := PlanFor(c.record.versions[base], status, DrainFinalizer(kind), now);
    if plan == RequestCancel { RequestCancelOk(kind, c, base, outcome); }
    else if plan == MarkKilled { MarkKilledOk(kind, c, base, status, outcome); }
    else if plan == Progress { ProgressOk(kind, c, base, status, outcome); }
  }

  lemma FinishOk(kind: Kind, storage: bool, c: Child, base: nat, ok: bool)
    requires ChildOk(kind, c) && PcOk(kind, c.record, Finishing(base))
    ensures CallOk(kind, c, FinishCall(kind, storage, c, base, ok))
  {
    var o := c.record.versions[base];
    var d := Drained(kind, storage, o);
    assert !IsDrainCounted(d);
    UpdateEffect(c.record, base, d);
  }

  /** All annotations but those named are the same. */
  predicate SameBut(a: Annotations, b: Annotations, keys: set<string>) {
    a - keys == b - keys
  }

  /** What a committed cancel changes: the token, and Spec.Kill of a PipelineRun; a TriggerRun's schedule
      has been deleted by then. */
  lemma CancelEffect(kind: Kind, c: Child, base: nat, outcome: Outcome)
    requires c.record.Valid() && base < |c.record.versions|
    requires DrainFinalizer(kind) in c.record.versions[base].finalizers
    ensures var call := RequestCancelCall(kind, c, base, outcome);
      call.pc == CountUp ==>
        && call.child.record.Valid() && call.child.record.present
        && var o, n := c.record.Current(), call.child.record.Current();
        && n == o.(kill := n.kill, annotations := n.annotations)
        && IsDrainCounted(n) && SameBut(n.annotations, o.annotations, {DRAIN_COUNTED_ANNOTATION})
        && (if kind == PipelineRun then n.kill else outcome.engine && n.kill == o.kill)
  {
    var o := c.record.versions[base];
    UpdateEffect(c.record, base, Cancelled(kind, o));
    TokenOnly(o.annotations);
  }

  lemma TokenOnly(a: Annotations)
    ensures SameBut(MarkDrainCounted(a), a, {DRAIN_COUNTED_ANNOTATION})
    ensures SameBut(ClearDrainCounted(a), a, {DRAIN_COUNTED_ANNOTATION})
  {
  }

  /** What a committed completion changes: the drain finalizer and the token go, and a kind that is retained
      is marked immutable; a child without other finalizers vanishes. */
  lemma CompletionEffect(kind: Kind, storage: bool, c: Child, base: nat, ok: bool)
    requires ChildOk(kind, c) && PcOk(kind, c.record, Finishing(base))
    ensures var r := FinishCall(kind, storage, c, base, ok).child.record;
      var o := c.record.Current();
      r != c.record ==>
        && base == c.record.Latest()
        && (r.present <==> o.finalizers != {DrainFinalizer(kind)})
        && (r.present ==>
              var n := r.Current();
              && n == o.(finalizers := o.finalizers - {DrainFinalizer(kind)}, annotations := n.annotations)
              && !IsDrainCounted(n) && (storage || kind == TriggerRun ==> IsImmutable(n))
              && SameBut(n.annotations, o.annotations, {DRAIN_COUNTED_ANNOTATION, IMMUTABLE_ANNOTATION}))
  {
    hide DrainFinalizer;
    var o := c.record.versions[base];
    var d := Drained(kind, storage, o);
    UpdateEffect(c.record, base, d);
    DrainedAnnotations(kind, storage, o);
    OnlyFinalizer(o.finalizers, DrainFinalizer(kind));
  }

  lemma OnlyFinalizer(s: set<string>, f: string)
    requires f in s
    ensures s - {f} == {} <==> s == {f}
  {
    assert s == (s - {f}) + {f};
  }

  lemma DrainedAnnotations(kind: Kind, storage: bool, o: Object)
    ensures var d := Drained(kind, storage, o);
      && !IsDrainCounted(d) && (storage || kind == TriggerRun ==> IsImmutable(d))
      && SameBut(d.annotations, o.annotations, {DRAIN_COUNTED_ANNOTATION, IMMUTABLE_ANNOTATION})
  {
    assert DRAIN_COUNTED_ANNOTATION != IMMUTABLE_ANNOTATION by {
      assert DRAIN_COUNTED_ANNOTATION[0] != IMMUTABLE_ANNOTATION[0];
    }
  }

  lemma OutsideOk(kind: Kind, c: Child, r: Record)
    requires ChildOk(kind, c) && Respects(kind, c.record, r)
    ensures ChildOk(kind, c.(record := r)) && Extends(c.record, r) && Carries(r) == Carries(c.record)
  {
  }

  // ---- Counting ----

  function Carriers(s: Cluster): set<Uid> {
    set uid | uid in s.children && Carries(s.children[uid].record)
  }

  function PendingUp(s: Cluster): set<nat> {
    set w | w in s.workers && s.workers[w].pc.CountUp?
  }

  function PendingDown(s: Cluster): set<nat> {
    set w | w in s.workers && s.workers[w].pc.CountDown?
  }

  /** The gauge, corrected by the metric calls still to come, is the number of children whose persisted
      object carries the token. */
  predicate GaugeExact(s: Cluster) {
    s.gauge + |PendingUp(s)| - |PendingDown(s)| == |Carriers(s)|
  }

  function PcAt(s: Cluster, w: nat): Pc {
    if w in s.workers then s.workers[w].pc else Idle
  }

  /** Two sets that agree except on x. */
  lemma SwapOne<T>(a: set<T>, b: set<T>, x: T)
    requires a - {x} == b - {x}
    ensures |a| + One(x in b) == |b| + One(x in a)
  {
    var rest := a - {x};
    assert a == if x in a then rest + {x} else rest;
    assert b == if x in b then rest + {x} else rest;
  }

  lemma PendingAfter(s: Cluster, w: nat, k: Worker)
    ensures |PendingUp(SetPc(s, w, k))| + One(PcAt(s, w).CountUp?) == |PendingUp(s)| + One(k.pc.CountUp?)
    ensures |PendingDown(SetPc(s, w, k))| + One(PcAt(s, w).CountDown?) == |PendingDown(s)| + One(k.pc.CountDown?)
  {
    var t := SetPc(s, w, k);
    SwapOne(PendingUp(t), PendingUp(s), w);
    SwapOne(PendingDown(t), PendingDown(s), w);
  }

  function SetChild(s: Cluster, uid: Uid, c: Child): Cluster {
    s.(children := s.children[uid := c])
  }

  lemma CarriersAfter(s: Cluster, uid: Uid, c: Child)
    ensures |Carriers(SetChild(s, uid, c))| + One(uid in Carriers(s)) == |Carriers(s)| + One(Carries(c.record))
  {
    hide Carries;
    SwapOne(Carriers(SetChild(s, uid, c)), Carriers(s), uid);
  }

  // ---- Every step keeps the invariant and the count ----

  lemma PerformOk(s: Cluster, w: nat, call: Call)
    requires Inv(s) && GaugeExact(s) && w in s.workers && s.workers[w].uid in s.children
    requires !s.workers[w].pc.CountUp? && !s.workers[w].pc.CountDown?
    requires CallOk(s.kind, s.children[s.workers[w].uid], call)
    ensures Inv(Perform(s, w, call)) && GaugeExact(Perform(s, w, call))
  {
    hide ChildOk, PcOk, Carries;
    var uid := s.workers[w].uid;
    var t := SetChild(s, uid, call.child);
    var u := SetPc(t, w, Worker(uid, call.pc));
    assert u == Perform(s, w, call);
    ChildReplaced(s, uid, call.child);
    CarriersAfter(s, uid, call.child);
    assert PendingUp(t) == PendingUp(s) && PendingDown(t) == PendingDown(s);
    PendingAfter(t, w, Worker(uid, call.pc));
    assert Carriers(u) == Carriers(t);
  }

  lemma ChildReplaced(s: Cluster, uid: Uid, c: Child)
    requires Inv(s) && uid in s.children && ChildOk(s.kind, c) && Extends(s.children[uid].record, c.record)
    ensures Inv(SetChild(s, uid, c))
  {
    hide ChildOk, PcOk, Extends;
    forall w | w in s.workers && s.workers[w].uid == uid
      ensures PcOk(s.kind, c.record, s.workers[w].pc)
    {
      PcStays(s.kind, s.children[uid].record, c.record, s.workers[w].pc);
    }
  }

  lemma StepKeeps(s: Cluster, a: Action)
    requires Inv(s) && GaugeExact(s)
    ensures Inv(Step(s, a)) && GaugeExact(Step(s, a)) && Step(s, a).kind == s.kind
  {
    if Enabled(s, a) {
      if a.Read? { ReadKeeps(s, a.worker, a.uid, a.version, a.seen); }
      else if a.Decide? { DecideKeeps(s, a.worker, a.outcome); }
      else if a.Finish? { FinishKeeps(s, a.worker, a.ok); }
      else if a.Count? { CountKeeps(s, a.worker); }
      else if a.Outside? { OutsideKeeps(s, a.uid, a.next); }
      else if a.Create? { CreateKeeps(s, a.uid, a.created); }
      else { assert Step(s, a) == s.(now := s.now + a.elapsed); TickKeeps(s, a.elapsed); }
    }
  }

  lemma ReadKeeps(s: Cluster, w: nat, uid: Uid, version: nat, seen: Status)
    requires Inv(s) && GaugeExact(s) && Enabled(s, Read(w, uid, version, seen))
    ensures Inv(Step(s, Read(w, uid, version, seen))) && GaugeExact(Step(s, Read(w, uid, version, seen)))
  {
    hide ChildOk, Carries;
    var k := Worker(uid, Deciding(version, seen));
    PendingAfter(s, w, k);
    assert Carriers(SetPc(s, w, k)) == Carriers(s);
  }

  lemma DecideKeeps(s: Cluster, w: nat, outcome: Outcome)
    requires Inv(s) && GaugeExact(s) && Enabled(s, Decide(w, outcome))
    ensures Inv(Step(s, Decide(w, outcome))) && GaugeExact(Step(s, Decide(w, outcome)))
  {
    hide ChildOk, Carries, DecideCall, GaugeExact, CallOk, Perform;
    var k := s.workers[w];
    DecideOk(s.kind, s.children[k.uid], k.pc.base, k.pc.status, s.now, outcome);
    PerformOk(s, w, DecideCall(s.kind, s.children[k.uid], k.pc.base, k.pc.status, s.now, outcome));
  }

  lemma FinishKeeps(s: Cluster, w: nat, ok: bool)
    requires Inv(s) && GaugeExact(s) && Enabled(s, Finish(w, ok))
    ensures Inv(Step(s, Finish(w, ok))) && GaugeExact(Step(s, Finish(w, ok)))
  {
    hide ChildOk, Carries, FinishCall, GaugeExact, CallOk, Perform;
    var k := s.workers[w];
    FinishOk(s.kind, s.storage, s.children[k.uid], k.pc.base, ok);
    PerformOk(s, w, FinishCall(s.kind, s.storage, s.children[k.uid], k.pc.base, ok));
  }

  lemma CountKeeps(s: Cluster, w: nat)
    requires Inv(s) && GaugeExact(s) && Enabled(s, Count(w))
    ensures Inv(Step(s, Count(w))) && GaugeExact(Step(s, Count(w)))
  {
    hide ChildOk, Carries;
    var k := Worker(s.workers[w].uid, Idle);
    PendingAfter(s, w, k);
    var t := SetPc(s, w, k);
    var u := Step(s, Count(w));
    assert Carriers(u) == Carriers(s) && PendingUp(u) == PendingUp(t) && PendingDown(u) == PendingDown(t);
  }

  lemma OutsideKeeps(s: Cluster, uid: Uid, next: Record)
    requires Inv(s) && GaugeExact(s) && Enabled(s, Outside(uid, next))
    ensures Inv(Step(s, Outside(uid, next))) && GaugeExact(Step(s, Outside(uid, next)))
  {
    hide ChildOk, Carries, Extends, Respects;
    var c := s.children[uid].(record := next);
    OutsideOk(s.kind, s.children[uid], next);
    ChildReplaced(s, uid, c);
    CarriersAfter(s, uid, c);
    var t := SetChild(s, uid, c);
    assert PendingUp(t) == PendingUp(s) && PendingDown(t) == PendingDown(s);
  }

  lemma CreateKeeps(s: Cluster, uid: Uid, o: Object)
    requires Inv(s) && GaugeExact(s) && Enabled(s, Create(uid, o))
    ensures Inv(Step(s, Create(uid, o))) && GaugeExact(Step(s, Create(uid, o)))
  {
    hide Carries, ChildOk;
    var c := Child(Record([o], true), Trail(0, 0, false, false));
    NewChildOk(s.kind, o);
    CarriersAfter(s, uid, c);
    var t := SetChild(s, uid, c);
    assert PendingUp(t) == PendingUp(s) && PendingDown(t) == PendingDown(s);
  }

  lemma NewChildOk(kind: Kind, o: Object)
    requires !IsDrainCounted(o)
    ensures var c := Child(Record([o], true), Trail(0, 0, false, false)); ChildOk(kind, c) && !Carries(c.record)
  {
  }

  lemma TickKeeps(s: Cluster, elapsed: nat)
    requires Inv(s) && GaugeExact(s)
    ensures Inv(s.(now := s.now + elapsed)) && GaugeExact(s.(now := s.now + elapsed))
  {
    hide ChildOk, PcOk, Carries;
    var t := s.(now := s.now + elapsed);
    assert Carriers(t) == Carriers(s) && PendingUp(t) == PendingUp(s) && PendingDown(t) == PendingDown(s);
  }

  // ---- Over every run ----

  predicate Initial(s: Cluster) {
    s.children == map[] && s.workers == map[] && s.gauge == 0
  }

  lemma {:induction false} RunKeeps(s: Cluster, actions: seq<Action>)
    requires Inv(s) && GaugeExact(s)
    ensures Inv(Run(s, actions)) && GaugeExact(Run(s, actions)) && Run(s, actions).kind == s.kind
    decreases |actions|
  {
    hide Inv, GaugeExact, Step;
    if actions != [] {
      StepKeeps(s, actions[0]);
      RunKeeps(Step(s, actions[0]), actions[1..]);
    }
  }

  /** Gauge exactness over any interleaving from the empty cluster, also with several workers on one child.
      When no worker stands between a commit and its metric call, the gauge is the number of persisted
      tokens. */
  lemma GaugeIsExact(s: Cluster, actions: seq<Action>)
    requires Initial(s)
    ensures var t := Run(s, actions);
      && t.gauge + |PendingUp(t)| == |Carriers(t)| + |PendingDown(t)|
      && (PendingUp(t) == {} && PendingDown(t) == {} ==> t.gauge == |Carriers(t)| >= 0)
  {
    assert Carriers(s) == {} && PendingUp(s) == {} && PendingDown(s) == {};
    RunKeeps(s, actions);
  }

  /** Of every child, in every reachable state: at most one RequestCancel has committed, at most one
      CompleteDrain has closed it, and the token stands exactly between the two, always protected by the
      drain finalizer. */
  lemma OneCancelOneClose(s: Cluster, actions: seq<Action>, uid: Uid)
    requires Initial(s) && uid in Run(s, actions).children
    ensures var t := Run(s, actions);
      var c := t.children[uid];
      && c.trail.counted <= c.trail.cancels <= 1
      && (Carries(c.record) <==> c.trail.cancels > c.trail.counted)
      && (Carries(c.record) ==> DrainFinalizer(s.kind) in c.record.Current().finalizers)
  {
    assert Carriers(s) == {} && PendingUp(s) == {} && PendingDown(s) == {};
    RunKeeps(s, actions);
  }
}
