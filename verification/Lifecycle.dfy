/** The three controllers together. Drain workers and ingesters act on the same objects; each keeps what
    the other relies on, so the guarantees of both hold in every interleaving. */
module Lifecycle {
  import opened Wrappers
  import opened KubeObjects
  import Drain = CascadeDrain
  import Gauge = DrainGauge
  import Alone = DrainExclusion
  import Ingest = Ingestion
  import Loss = NoObjectLost

  type Uid = nat

  datatype System = System(cluster: Drain.Cluster, cfg: Ingest.Config, cells: map<Uid, Ingest.Cell>)

  /** A step of the drain machine, where all others but ingester and API deletes are its Outside steps; or
      a step of the ingester or the API's delete handler on one object. */
  datatype Action = ByDrain(drain: Drain.Action) | ByIngester(uid: Uid, ingest: Ingest.Action)

  function NewCell(r: Record): Ingest.Cell {
    Ingest.Cell(r, Ingest.NoRow, Ingest.Idle, 0, false)
  }

  /** The ingester's side after the drain machine has moved. */
  function Sync(cells: map<Uid, Ingest.Cell>, children: map<Uid, Drain.Child>): map<Uid, Ingest.Cell> {
    map uid | uid in children ::
      if uid in cells then cells[uid].(record := children[uid].record) else NewCell(children[uid].record)
  }

  /** Everybody else leaves the finalizers of both controllers alone; objects are born with the
      ingester's. */
  predicate Enabled(s: System, a: Action) {
    match a
    case ByDrain(d) =>
      && (d.Outside? ==> d.uid in s.cluster.children && s.cluster.children[d.uid].record.Valid()
                         && Ingest.Respects(s.cluster.children[d.uid].record, d.next))
      && (d.Create? ==> INGESTER_FINALIZER in d.created.finalizers)
    case ByIngester(uid, i) => uid in s.cells && uid in s.cluster.children && !i.Outside?
  }

  function Step(s: System, a: Action): System {
    if !Enabled(s, a) then s else
    match a
    case ByDrain(d) =>
      var cluster := Drain.Step(s.cluster, d);
      s.(cluster := cluster, cells := Sync(s.cells, cluster.children))
    case ByIngester(uid, i) =>
      var cell := Ingest.Step(s.cfg, s.cells[uid], i);
      var child := s.cluster.children[uid].(record := cell.record);
      s.(cluster := s.cluster.(children := s.cluster.children[uid := child]), cells := s.cells[uid := cell])
  }

  function Run(s: System, actions: seq<Action>): System
    decreases |actions|
  {
    if actions == [] then s else Run(Step(s, actions[0]), actions[1..])
  }

  predicate Agree(s: System) {
    && s.cells.Keys == s.cluster.children.Keys
    && forall uid :: uid in s.cells ==> s.cells[uid].record == s.cluster.children[uid].record
  }

  predicate Inv(s: System) {
    && Agree(s) && Gauge.Inv(s.cluster) && Gauge.GaugeExact(s.cluster)
    && forall uid :: uid in s.cells ==> Loss.Inv(s.cfg, s.cells[uid])
  }

  // ---- Each controller keeps what the other relies on ----

  lemma UpdateKeeps(r: Record, base: nat, o: Object, f: string)
    requires r.Valid() && base < |r.versions|
    requires f in r.versions[base].finalizers ==> f in o.finalizers
    ensures Update(r, base, o).Some? ==> ServerStep(r, Update(r, base, o).value)
                                         && KeepsFinalizer(r, Update(r, base, o).value, f)
  {
    UpdateEffect(r, base, o);
  }

  lemma StatusKeeps(r: Record, base: nat, status: Status)
    requires r.Valid()
    ensures UpdateStatus(r, base, status).Some? ==>
      ServerStep(r, UpdateStatus(r, base, status).value)
      && forall f :: KeepsFinalizer(r, UpdateStatus(r, base, status).value, f)
  {
    UpdateStatusEffect(r, base, status);
  }

  lemma DrainFinalizerIsNotOurs(kind: Drain.Kind)
    ensures Drain.DrainFinalizer(kind) != INGESTER_FINALIZER
  {
    assert "pipelineruns.michelangelo.uber.com/drain"[0] != INGESTER_FINALIZER[0];
    assert "triggerruns.michelangelo.uber.com/drain"[0] != INGESTER_FINALIZER[0];
  }

  predicate SameOrRespects(r: Record, r': Record) {
    r == r' || (r.Valid() && Ingest.Respects(r, r'))
  }

  /** A drain worker never takes the ingester's finalizer. */
  lemma DrainRespectsIngester(kind: Drain.Kind, storage: bool, c: Drain.Child, base: nat, status: Status, now: int,
                              outcome: Drain.Outcome, ok: bool)
    requires c.record.Valid() && base < |c.record.versions|
    ensures SameOrRespects(c.record, Drain.DecideCall(kind, c, base, status, now, outcome).child.record)
    ensures SameOrRespects(c.record, Drain.FinishCall(kind, storage, c, base, ok).child.record)
  {
    hide Lookup, ServerStep, KeepsFinalizer, Update, UpdateStatus, Drain.DrainFinalizer;
    var o := c.record.versions[base];
    DrainFinalizerIsNotOurs(kind);
    UpdateKeeps(c.record, base, Drain.Drained(kind, storage, o), INGESTER_FINALIZER);
    UpdateKeeps(c.record, base, Drain.Cancelled(kind, o), INGESTER_FINALIZER);
    StatusKeeps(c.record, base, status.(terminal := true));
    var next := if kind == Drain.TriggerRun then Status(true, true, outcome.status.detail) else outcome.status;
    StatusKeeps(c.record, base, next);
  }

  predicate SameOrLeavesDrain(kind: Drain.Kind, r: Record, r': Record) {
    r == r' || (r.Valid() && Drain.Respects(kind, r, r'))
  }

  /** A write that changes neither the token nor the drain finalizer. */
  lemma UpdateLeavesDrain(kind: Drain.Kind, r: Record, base: nat, o: Object)
    requires r.Valid() && base < |r.versions|
    requires Drain.DrainFinalizer(kind) in r.versions[base].finalizers ==> Drain.DrainFinalizer(kind) in o.finalizers
    requires IsDrainCounted(o) == IsDrainCounted(r.versions[base])
    ensures Update(r, base, o).Some? ==> Drain.Respects(kind, r, Update(r, base, o).value)
  {
    hide Drain.DrainFinalizer;
    UpdateKeeps(r, base, o, Drain.DrainFinalizer(kind));
  }

  lemma DeleteLeavesDrain(kind: Drain.Kind, r: Record, now: int, propagation: set<string>)
    requires r.Valid()
    ensures Delete(r, now, propagation).Some? ==> SameOrLeavesDrain(kind, r, Delete(r, now, propagation).value)
  {
    hide Drain.DrainFinalizer;
    Loss.DeleteEffect(r, now, propagation);
  }

  /** Neither the ingester nor the API's delete handler touches the token or the drain finalizer. */
  lemma IngesterRespectsDrain(kind: Drain.Kind, cfg: Ingest.Config, c: Ingest.Cell, a: Ingest.Action)
    requires c.record.Valid() && !a.Outside?
    ensures SameOrLeavesDrain(kind, c.record, Ingest.Step(cfg, c, a).record)
  {
    hide Drain.DrainFinalizer, Update, Delete, Ingest.Propagation, Drain.Respects, IsImmutable;
    if Ingest.Enabled(c, a) && !a.Read? {
      var base := if a.ApiDelete? then a.version else c.pc.base;
      var o := c.record.versions[base];
      if a.Decide? {
        UpdateLeavesDrain(kind, c.record, base, Ingest.WithPrimaryKey(o));
      } else if a.Remove? {
        DrainFinalizerIsNotOurs(kind);
        UpdateLeavesDrain(kind, c.record, base, o.(finalizers := o.finalizers - {INGESTER_FINALIZER}));
      } else if a.DeleteCall? {
        DeleteLeavesDrain(kind, c.record, a.now, Ingest.Propagation(o));
      } else {
        UpdateLeavesDrain(kind, c.record, base, Ingest.Marked(o, a.policy));
      }
    }
  }

  // ---- Steps and runs ----

  /** A step of the drain machine is, for each object, nothing or an Outside step of its ingester. */
  lemma DrainIsOutside(s: System, d: Drain.Action, uid: Uid)
    requires Inv(s) && Enabled(s, ByDrain(d)) && uid in s.cells
    ensures var t := Step(s, ByDrain(d));
      && uid in t.cells
      && (t.cells[uid] == s.cells[uid]
          || t.cells[uid] == Ingest.Step(s.cfg, s.cells[uid], Ingest.Outside(t.cells[uid].record)))
  {
    hide Drain.DecideCall, Drain.FinishCall, Ingest.Respects, Drain.Respects, Loss.Inv, Gauge.GaugeExact, Gauge.Inv;
    ChildValid(s, uid);
    if Drain.Enabled(s.cluster, d) && (d.Decide? || d.Finish?) && s.cluster.workers[d.worker].uid == uid {
      var k := s.cluster.workers[d.worker];
      var seen := if k.pc.Deciding? then k.pc.status else Status(false, false, 0);
      var out := if d.Decide? then d.outcome else Drain.Outcome(false, false, Status(false, false, 0));
      DrainRespectsIngester(s.cluster.kind, s.cluster.storage, s.cluster.children[uid], k.pc.base, seen, s.cluster.now,
                            out, d.Finish? && d.ok);
    }
  }

  lemma ChildValid(s: System, uid: Uid)
    requires Inv(s) && uid in s.cells
    ensures uid in s.cluster.children && s.cells[uid].record == s.cluster.children[uid].record
    ensures s.cells[uid].record.Valid()
  {
    hide Gauge.GaugeExact, Gauge.Inv;
  }

  lemma DrainStepKeeps(s: System, d: Drain.Action)
    requires Inv(s) && Enabled(s, ByDrain(d))
    ensures Inv(Step(s, ByDrain(d)))
  {
    hide Gauge.GaugeExact, Gauge.Inv, Loss.Inv, Ingest.Step, Drain.Step, Ingest.Respects;
    Gauge.StepKeeps(s.cluster, d);
    var t := Step(s, ByDrain(d));
    forall uid | uid in t.cells
      ensures Loss.Inv(t.cfg, t.cells[uid])
    {
      if uid in s.cells {
        DrainIsOutside(s, d, uid);
        Loss.StepKeeps(s.cfg, s.cells[uid], Ingest.Outside(t.cells[uid].record));
      } else {
        NewChild(s, d, uid);
      }
    }
    KeysGrow(s, d);
  }

  lemma KeysGrow(s: System, d: Drain.Action)
    ensures s.cluster.children.Keys <= Drain.Step(s.cluster, d).children.Keys
  {
    hide Drain.DecideCall, Drain.FinishCall, Drain.Respects;
  }

  lemma NewChild(s: System, d: Drain.Action, uid: Uid)
    requires Inv(s) && Enabled(s, ByDrain(d)) && uid !in s.cells && uid in Step(s, ByDrain(d)).cells
    ensures Loss.Inv(s.cfg, Step(s, ByDrain(d)).cells[uid])
  {
    hide Drain.DecideCall, Drain.FinishCall, Ingest.Respects, Drain.Respects, Gauge.GaugeExact, Gauge.Inv, Loss.Excused;
  }

  lemma IngesterStepKeeps(s: System, uid: Uid, i: Ingest.Action)
    requires Inv(s) && Enabled(s, ByIngester(uid, i))
    ensures Inv(Step(s, ByIngester(uid, i)))
  {
    hide Gauge.GaugeExact, Gauge.Inv, Loss.Inv, Ingest.Step, Drain.Respects;
    ChildValid(s, uid);
    Loss.StepKeeps(s.cfg, s.cells[uid], i);
    IngesterRespectsDrain(s.cluster.kind, s.cfg, s.cells[uid], i);
    IngesterOnCluster(s, uid, i);
    Gauge.StepKeeps(s.cluster, Drain.Outside(uid, Ingest.Step(s.cfg, s.cells[uid], i).record));
  }

  lemma {:induction false} RunKeeps(s: System, actions: seq<Action>)
    requires Inv(s)
    ensures Inv(Run(s, actions))
    decreases |actions|
  {
    hide Inv, Drain.Step, Ingest.Step;
    if actions != [] {
      if Enabled(s, actions[0]) {
        if actions[0].ByDrain? { DrainStepKeeps(s, actions[0].drain); }
        else { IngesterStepKeeps(s, actions[0].uid, actions[0].ingest); }
      }
      RunKeeps(Step(s, actions[0]), actions[1..]);
    }
  }

  /** In every interleaving of drain workers, ingesters, API deletes and others, from the empty cluster: the
      gauge counts the persisted tokens, up to metric calls still pending, and no object is lost. */
  lemma BothStoresAgree(s: System, actions: seq<Action>, uid: Uid)
    requires Gauge.Initial(s.cluster) && s.cells == map[]
    ensures var t := Run(s, actions);
      && t.cluster.gauge + |Gauge.PendingUp(t.cluster)| == |Gauge.Carriers(t.cluster)| + |Gauge.PendingDown(t.cluster)|
      && (uid in t.cells && Loss.Released(t.cells[uid]) ==>
            t.cells[uid].row.Live? || Loss.Excused(t.cfg, t.cells[uid]))
  {
    hide Loss.Excused;
    assert Gauge.Carriers(s.cluster) == {} && Gauge.PendingUp(s.cluster) == {} && Gauge.PendingDown(s.cluster) == {};
    RunKeeps(s, actions);
  }

  // ---- One worker at a time ----

  predicate AloneRun(s: System, actions: seq<Action>)
    decreases |actions|
  {
    actions != [] ==>
      && (actions[0].ByDrain? ==> Alone.TakesUpAlone(s.cluster, actions[0].drain))
      && AloneRun(Step(s, actions[0]), actions[1..])
  }

  predicate OneAtATime(s: System) {
    Alone.Exclusive(s.cluster) && Alone.PendingCarry(s.cluster)
  }

  lemma StepOneAtATime(s: System, a: Action)
    requires Inv(s) && OneAtATime(s) && Enabled(s, a)
    requires a.ByDrain? ==> Alone.TakesUpAlone(s.cluster, a.drain)
    ensures OneAtATime(Step(s, a))
  {
    hide Gauge.GaugeExact, Gauge.Inv, Loss.Inv, Ingest.Step, Drain.Respects, Drain.Step;
    hide Alone.Exclusive, Alone.PendingCarry;
    if a.ByDrain? {
      Alone.StepAlone(s.cluster, a.drain);
    } else {
      ChildValid(s, a.uid);
      IngesterRespectsDrain(s.cluster.kind, s.cfg, s.cells[a.uid], a.ingest);
      IngesterOnCluster(s, a.uid, a.ingest);
      Alone.StepAlone(s.cluster, Drain.Outside(a.uid, Ingest.Step(s.cfg, s.cells[a.uid], a.ingest).record));
    }
  }

  /** To the drain machine, a step of the ingester is nothing or an Outside step. */
  lemma IngesterOnCluster(s: System, uid: Uid, i: Ingest.Action)
    requires Agree(s) && Enabled(s, ByIngester(uid, i))
    requires s.cells[uid].record.Valid()
    requires SameOrLeavesDrain(s.cluster.kind, s.cells[uid].record, Ingest.Step(s.cfg, s.cells[uid], i).record)
    ensures var t, r := Step(s, ByIngester(uid, i)), Ingest.Step(s.cfg, s.cells[uid], i).record;
      t.cluster == if r == s.cells[uid].record then s.cluster else Drain.Step(s.cluster, Drain.Outside(uid, r))
  {
    hide Ingest.Step, Drain.Respects;
    var r := Ingest.Step(s.cfg, s.cells[uid], i).record;
    if r == s.cells[uid].record {
      assert s.cluster.children[uid := s.cluster.children[uid].(record := r)] == s.cluster.children;
    }
  }

  lemma {:induction false} RunOneAtATime(s: System, actions: seq<Action>)
    requires Inv(s) && OneAtATime(s) && AloneRun(s, actions)
    ensures OneAtATime(Run(s, actions))
    decreases |actions|
  {
    hide Inv, OneAtATime, Drain.Step, Ingest.Step, Alone.TakesUpAlone;
    if actions != [] {
      if Enabled(s, actions[0]) {
        StepOneAtATime(s, actions[0]);
        if actions[0].ByDrain? { DrainStepKeeps(s, actions[0].drain); }
        else { IngesterStepKeeps(s, actions[0].uid, actions[0].ingest); }
      }
      RunOneAtATime(Step(s, actions[0]), actions[1..]);
    }
  }

  /** With ingesters, API deletes and others at work too: as long as a child is taken up by one drain worker
      at a time, the gauge is never below the decrements still to come, in any state. */
  lemma GaugeNeverNegative(s: System, actions: seq<Action>)
    requires Gauge.Initial(s.cluster) && s.cells == map[] && AloneRun(s, actions)
    ensures var t := Run(s, actions).cluster; t.gauge >= |Gauge.PendingDown(t)| >= 0
  {
    assert Gauge.Carriers(s.cluster) == {} && Gauge.PendingUp(s.cluster) == {} && Gauge.PendingDown(s.cluster) == {};
    RunKeeps(s, actions);
    RunOneAtATime(s, actions);
    Alone.NotNegative(Run(s, actions).cluster);
  }
}
