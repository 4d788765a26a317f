/** The graceful drain of a parent's child runs. Any number of drain workers of one kind of run act on
    any number of runs; every API call is a step of its own, may fail without effect, and works on a
    possibly stale copy. Everybody else appears as `Outside` steps. */
module CascadeDrain {
  import opened Wrappers
  import opened KubeObjects

  type Uid = nat

  datatype Kind = PipelineRun | TriggerRun

  function DrainFinalizer(kind: Kind): string {
    match kind
    case PipelineRun => "pipelineruns.michelangelo.uber.com/drain"
    case TriggerRun => "triggerruns.michelangelo.uber.com/drain"
  }

  /** Times are in nanoseconds, as in Go. */
  const SECOND: int := 1_000_000_000
  const CASCADE_DRAIN_TIMEOUT: int := 24 * 3600 * SECOND
  const DRAIN_REQUEUE_INTERVAL: int := 10 * SECOND

  // ---- The driver's decision ----

  datatype Plan = Nothing | Finalize | Timeout | MarkKilled | RequestCancel | Progress

  /** Which branch `RunDrainStep` takes on a deleted object o whose status reads as `status`. */
  function PlanFor(o: Object, status: Status, finalizer: string, now: int): Plan {
    if finalizer !in o.finalizers then Nothing
    else if status.terminal then Finalize
    else if o.deletedAt.Some? && now - o.deletedAt.value >= CASCADE_DRAIN_TIMEOUT then Timeout
    else if !status.started then MarkKilled
    else if !IsDrainCounted(o) then RequestCancel
    else Progress
  }

  function MarkDrainCounted(a: Annotations): Annotations {
    a[DRAIN_COUNTED_ANNOTATION := "true"]
  }

  function ClearDrainCounted(a: Annotations): Annotations {
    a - {DRAIN_COUNTED_ANNOTATION}
  }

  function Cancelled(kind: Kind, o: Object): Object {
    o.(kill := o.kill || kind == PipelineRun, annotations := MarkDrainCounted(o.annotations))
  }

  /** `CompleteDrain`: a TriggerRun is always retained, a PipelineRun when metadata storage is on. */
  function Drained(kind: Kind, storage: bool, o: Object): Object {
    var a := if storage || kind == TriggerRun then o.annotations[IMMUTABLE_ANNOTATION := "true"] else o.annotations;
    o.(annotations := ClearDrainCounted(a), finalizers := o.finalizers - {DrainFinalizer(kind)})
  }

  // ---- State ----

  /** What has happened to one run so far: committed RequestCancels, committed CompleteDrains that carried
      the token, whether a Progress has persisted a terminal status, whether ForceKill was called. */
  datatype Trail = Trail(cancels: nat, counted: nat, terminalProgress: bool, forced: bool)

  datatype Child = Child(record: Record, trail: Trail)

  /** A worker between two API calls. `Deciding` holds the version read and the status as the worker sees
      it; `Finishing` is about to call CompleteDrain; the last two are about to move the gauge. */
  datatype Pc =
    | Idle
    | Deciding(base: nat, status: Status)
    | Finishing(base: nat)
    | CountUp
    | CountDown

  datatype Worker = Worker(uid: Uid, pc: Pc)

  datatype Cluster = Cluster(kind: Kind, storage: bool, children: map<Uid, Child>, workers: map<nat, Worker>,
                             gauge: int, now: int)

  /** How the calls of one drain step go: `ok` says that the API server answers (a write still needs the
      newest version), `engine` that the workflow engine does, and `status` is what it makes of the run. */
  datatype Outcome = Outcome(ok: bool, engine: bool, status: Status)

  datatype Action =
    | Read(worker: nat, uid: Uid, version: nat, seen: Status)
    | Decide(worker: nat, outcome: Outcome)
    | Finish(worker: nat, ok: bool)
    | Count(worker: nat)
    | Outside(uid: Uid, next: Record)
    | Create(uid: Uid, created: Object)
    | Tick(elapsed: nat)

  // ---- Steps ----

  /** A call on the newest version, or no effect. */
  datatype Call = Call(child: Child, pc: Pc)

  /** `Progress`. A PipelineRun whose status does not change is not written; a TriggerRun always is, and
      a successful kill makes it terminal. */
  function ProgressCall(kind: Kind, c: Child, base: nat, status: Status, outcome: Outcome): Call {
    if !outcome.engine then Call(c, Idle) else
    var next := if kind == TriggerRun then Status(true, true, outcome.status.detail) else outcome.status;
    if kind == PipelineRun && next == status then Call(c, if next.terminal then Finishing(base) else Idle) else
    var r := UpdateStatus(c.record, base, next);
    if !outcome.ok || r.None? || !r.value.Valid() then Call(c, Idle) else
    var trail := c.trail.(terminalProgress := c.trail.terminalProgress || next.terminal);
    Call(Child(r.value, trail), if next.terminal then Finishing(r.value.Latest()) else Idle)
  }

  function MarkKilledCall(c: Child, base: nat, status: Status, outcome: Outcome): Call {
    var r := UpdateStatus(c.record, base, status.(terminal := true));
    if !outcome.ok || r.None? || !r.value.Valid() then Call(c, Idle)
    else Call(c.(record := r.value), Finishing(r.value.Latest()))
  }

  function RequestCancelCall(kind: Kind, c: Child, base: nat, outcome: Outcome): Call
    requires base < |c.record.versions|
  {
    if kind == TriggerRun && !outcome.engine then Call(c, Idle) else
    var r := Update(c.record, base, Cancelled(kind, c.record.versions[base]));
    if !outcome.ok || r.None? then Call(c, Idle)
    else Call(Child(r.value, c.trail.(cancels := c.trail.cancels + 1)), CountUp)
  }

  /** `RunDrainStep` up to, not including, `finish`. */
  function DecideCall(kind: Kind, c: Child, base: nat, status: Status, now: int, outcome: Outcome): Call
    requires base < |c.record.versions|
  {
    match PlanFor(c.record.versions[base], status, DrainFinalizer(kind), now)
    case Nothing => Call(c, Idle)
    case Finalize => Call(c, Finishing(base))
    case Timeout => Call(c.(trail := c.trail.(forced := true)), Finishing(base))
    case MarkKilled => MarkKilledCall(c, base, status, outcome)
    case RequestCancel => RequestCancelCall(kind, c, base, outcome)
    case Progress => ProgressCall(kind, c, base, status, outcome)
  }

  /** `finish`: CompleteDrain, and whether the gauge is to go down. */
  function FinishCall(kind: Kind, storage: bool, c: Child, base: nat, ok: bool): Call
    requires base < |c.record.versions|
  {
    var o := c.record.versions[base];
    var r := Update(c.record, base, Drained(kind, storage, o));
    if !ok || r.None? then Call(c, Idle)
    else if IsDrainCounted(o) then Call(Child(r.value, c.trail.(counted := c.trail.counted + 1)), CountDown)
    else Call(c.(record := r.value), Idle)
  }

  /** The status a worker sees in version o: the stored one, except that a PipelineRun without workflow
      ids may have it rebuilt in memory from the engine. */
  predicate Sees(kind: Kind, o: Object, status: Status) {
    status == o.status || (kind == PipelineRun && !o.status.started)
  }

  /** What everybody else may do: anything the server allows that leaves the token and the drain finalizer
      of this kind alone. */
  predicate Respects(kind: Kind, r: Record, r': Record) {
    && ServerStep(r, r') && KeepsFinalizer(r, r', DrainFinalizer(kind))
    && (r'.present ==> IsDrainCounted(r'.Current()) == IsDrainCounted(r.Current()))
  }

  predicate IsIdle(s: Cluster, w: nat) {
    w !in s.workers || s.workers[w].pc.Idle?
  }

  /** The worker holds a version of a child that exists in the model. */
  predicate Holds(s: Cluster, w: nat, base: nat) {
    w in s.workers && s.workers[w].uid in s.children && base < |s.children[s.workers[w].uid].record.versions|
  }

  function Perform(s: Cluster, w: nat, call: Call): Cluster
    requires w in s.workers
  {
    var uid := s.workers[w].uid;
    s.(children := s.children[uid := call.child], workers := s.workers[w := Worker(uid, call.pc)])
  }

  function SetPc(s: Cluster, w: nat, worker: Worker): Cluster {
    s.(workers := s.workers[w := worker])
  }

  predicate Enabled(s: Cluster, a: Action) {
    match a
    case Read(w, uid, version, seen) =>
      && IsIdle(s, w) && uid in s.children && version < |s.children[uid].record.versions|
      && s.children[uid].record.versions[version].deletedAt.Some?
      && Sees(s.kind, s.children[uid].record.versions[version], seen)
    case Decide(w, _) => w in s.workers && s.workers[w].pc.Deciding? && Holds(s, w, s.workers[w].pc.base)
    case Finish(w, _) => w in s.workers && s.workers[w].pc.Finishing? && Holds(s, w, s.workers[w].pc.base)
    case Count(w) => w in s.workers && (s.workers[w].pc.CountUp? || s.workers[w].pc.CountDown?)
    case Outside(uid, next) =>
      uid in s.children && s.children[uid].record.Valid() && Respects(s.kind, s.children[uid].record, next)
    case Create(uid, o) =>
      uid !in s.children && o.deletedAt.None? && !IsDrainCounted(o)
    case Tick(_) => true
  }

  function Step(s: Cluster, a: Action): Cluster {
    if !Enabled(s, a) then s else
    match a
    case Read(w, uid, version, seen) => SetPc(s, w, Worker(uid, Deciding(version, seen)))
    case Decide(w, outcome) =>
      var k := s.workers[w];
      Perform(s, w, DecideCall(s.kind, s.children[k.uid], k.pc.base, k.pc.status, s.now, outcome))
    case Finish(w, ok) =>
      var k := s.workers[w];
      Perform(s, w, FinishCall(s.kind, s.storage, s.children[k.uid], k.pc.base, ok))
    case Count(w) =>
      var k := s.workers[w];
      SetPc(s, w, Worker(k.uid, Idle)).(gauge := if k.pc.CountUp? then s.gauge + 1 else s.gauge - 1)
    case Outside(uid, next) => s.(children := s.children[uid := s.children[uid].(record := next)])
    case Create(uid, o) =>
      s.(children := s.children[uid := Child(Record([o], true), Trail(0, 0, false, false))])
    case Tick(elapsed) => s.(now := s.now + elapsed)
  }

  function Run(s: Cluster, actions: seq<Action>): Cluster
    decreases |actions|
  {
    if actions == [] then s else Run(Step(s, actions[0]), actions[1..])
  }

  lemma {:induction false} RunConcat(s: Cluster, a: seq<Action>, b: seq<Action>)
    ensures Run(s, a + b) == Run(Run(s, a), b)
    decreases |a|
  {
    hide Step;
    if a == [] {
      assert a + b == b;
    } else {
      assert (a + b)[1..] == a[1..] + b;
      RunConcat(Step(s, a[0]), a[1..], b);
    }
  }

  lemma RunFour(s: Cluster, a: Action, b: Action, c: Action, d: Action)
    ensures Run(s, [a, b, c, d]) == Step(Step(Step(Step(s, a), b), c), d)
  {
    hide Step;
    assert [a, b, c, d][1..] == [b, c, d] && [b, c, d][1..] == [c, d] && [c, d][1..] == [d] && [d][1..] == [];
    assert Run(Step(s, a), [b, c, d]) == Run(Step(Step(s, a), b), [c, d]);
    assert Run(Step(Step(s, a), b), [c, d]) == Run(Step(Step(Step(s, a), b), c), [d]);
  }
}
