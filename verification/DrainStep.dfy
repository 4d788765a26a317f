/** The driver as code: an in-memory copy of the run that the target's methods change and then persist.
    `RunDrainStep` does what `DrainPass.Pass` says. */
module DrainStep {
  import opened Wrappers
  import opened KubeObjects
  import opened CascadeDrain
  import opened DrainPass
  import opened KubeClient

  /** The active-drain gauge of one kind. */
  class Gauge {
    var active: int

    constructor ()
      ensures active == 0
    {
      active := 0;
    }

    method Inc()
      modifies this
      ensures active == old(active) + 1
    {
      active := active + 1;
    }

    method Dec()
      modifies this
      ensures active == old(active) - 1
    {
      active := active - 1;
    }
  }

  /** Update takes neither the status nor the deletionTimestamp from the caller. */
  lemma UpdateIgnores(r: Record, base: nat, o: Object, status: Status)
    ensures Update(r, base, o.(status := status)) == Update(r, base, o)
  {
  }

  class DrainTarget {
    const kind: Kind
    const storage: bool
    const server: ApiServer
    const run: ObjectCopy
    ghost var trail: Trail

    constructor (kind: Kind, storage: bool, server: ApiServer, run: ObjectCopy, ghost trail: Trail)
      ensures this.kind == kind && this.storage == storage && this.server == server && this.run == run
      ensures this.trail == trail
    {
      this.kind, this.storage, this.server, this.run := kind, storage, server, run;
      this.trail := trail;
    }

    ghost function Child(): Child
      reads this, server
    {
      CascadeDrain.Child(server.record, trail)
    }

    /** The copy is some stored version, with the status as this reconcile sees it. */
    ghost predicate Copies(base: nat, status: Status)
      reads server, run
    {
      && run.resourceVersion == base < |server.record.versions|
      && run.Value() == server.record.versions[base].(status := status)
    }

    /** A TriggerRun's schedule is deleted before anything is persisted; a PipelineRun only gets Spec.Kill. */
    method RequestCancel(outcome: Outcome, ghost base: nat, ghost status: Status) returns (err: bool)
      requires Copies(base, status)
      modifies this, server, run
      ensures var call := RequestCancelCall(kind, old(Child()), base, outcome);
        Child() == call.child && call.pc == (if err then Idle else CountUp)
    {
      hide KubeObjects.Update;
      ghost var o := server.record.versions[base];
      UpdateIgnores(server.record, base, Cancelled(kind, o), status);
      if kind == TriggerRun {
        if !outcome.engine { return true; }
      } else {
        run.kill := true;
      }
      run.MarkDrainCounted();
      assert run.Value() == Cancelled(kind, o).(status := status);
      err := server.Update(run.resourceVersion, run.Value(), outcome.ok);
      if !err {
        trail := trail.(cancels := trail.cancels + 1);
      }
    }

    method Progress(outcome: Outcome, ghost base: nat, ghost status: Status) returns (terminal: bool, err: bool)
      requires Copies(base, status) && server.record.versions[base].finalizers != {} && !status.terminal
      modifies this, server, run
      ensures var call := ProgressCall(kind, old(Child()), base, status, outcome);
        && Child() == call.child
        && (call.pc.Finishing? <==> !err && terminal)
        && (call.pc.Finishing? ==> Copies(call.pc.base, server.record.versions[call.pc.base].status))
        && (call.pc.Idle? <==> err || !terminal)
        && (!err && !terminal <==> ProgressWaits(kind, old(Child()), base, status, outcome))
    {
      terminal := false;
      if !outcome.engine { return terminal, true; }
      ghost var record := server.record;
      var before := run.status;
      run.status := if kind == TriggerRun then Status(true, true, outcome.status.detail) else outcome.status;
      if kind == TriggerRun || run.status != before {
        UpdateStatusEffect(server.record, base, run.status);
        err := server.UpdateStatus(run.resourceVersion, run.status, outcome.ok);
        if err { return; }
        trail := trail.(terminalProgress := trail.terminalProgress || run.status.terminal);
        run.Refresh(server.record.Latest(), server.record.Current());
      } else {
        err := false;
      }
      terminal := run.status.terminal;
    }

    method MarkKilled(outcome: Outcome, ghost base: nat, ghost status: Status) returns (err: bool)
      requires Copies(base, status) && server.record.versions[base].finalizers != {}
      modifies this, server, run
      ensures var call := MarkKilledCall(old(Child()), base, status, outcome);
        && Child() == call.child && (err <==> call.pc.Idle?) && (call.pc.Finishing? <==> !err)
        && (call.pc.Finishing? ==> Copies(call.pc.base, server.record.versions[call.pc.base].status))
    {
      run.status := run.status.(terminal := true);
      UpdateStatusEffect(server.record, base, run.status);
      err := server.UpdateStatus(run.resourceVersion, run.status, outcome.ok);
      if !err {
        run.Refresh(server.record.Latest(), server.record.Current());
      }
    }

    /** Best effort: whatever the engine answers, the drain goes on. */
    method ForceKill()
      modifies this
      ensures trail == old(trail).(forced := true)
    {
      trail := trail.(forced := true);
    }

    method CompleteDrain(answers: bool, ghost base: nat, ghost status: Status) returns (err: bool)
      requires Copies(base, status)
      modifies server, run
      ensures var r := Update(old(server.record), base, Drained(kind, storage, old(server.record.versions[base])));
        && (err <==> !answers || r.None?)
        && server.record == if err then old(server.record) else r.value
    {
      hide KubeObjects.Update;
      ghost var o := server.record.versions[base];
      UpdateIgnores(server.record, base, Drained(kind, storage, o), status);
      if storage || kind == TriggerRun {
        run.MarkImmutable();
      }
      run.ClearDrainCounted();
      run.RemoveFinalizer(DrainFinalizer(kind));
      assert run.Value() == Drained(kind, storage, o).(status := status);
      err := server.Update(run.resourceVersion, run.Value(), answers);
    }

    /** `finish`: the token is looked at before CompleteDrain clears it, the gauge moves only after the
        update has gone through. */
    method Finish(gauge: Gauge, answers: bool, ghost base: nat, ghost status: Status) returns (err: bool)
      requires Copies(base, status)
      modifies this, server, run, gauge
      ensures var call := FinishCall(kind, storage, old(Child()), base, answers);
        && Child() == call.child && gauge.active == old(gauge.active) - (if call.pc.CountDown? then 1 else 0)
      ensures err <==>
        !answers || Update(old(server.record), base, Drained(kind, storage, old(server.record.versions[base]))).None?
    {
      hide KubeObjects.Update, Drained, Lookup;
      var counted := IsDrainCounted(run.Value());
      assert counted == IsDrainCounted(server.record.versions[base]);
      err := CompleteDrain(answers, base, status);
      if err { return; }
      if counted {
        gauge.Dec();
        trail := trail.(counted := trail.counted + 1);
      }
    }

    /** One reconcile of a deleted run. */
    method RunDrainStep(gauge: Gauge, now: int, outcome: Outcome, finishOk: bool, ghost base: nat, ghost status: Status)
      returns (requeue: bool, err: bool)
      requires Copies(base, status)
      modifies this, server, run, gauge
      ensures var p := Pass(kind, storage, old(Child()), base, status, now, outcome, finishOk);
        && Child() == p.child && gauge.active == old(gauge.active) + p.gauge
        && requeue == p.requeue && err == p.err
    {
      hide KubeObjects.Update, KubeObjects.UpdateStatus, Drained, ProgressCall, MarkKilledCall;
      hide RequestCancelCall, FinishCall;
      hide ProgressWaits, DrainFinalizer, Lookup;
      requeue, err := false, false;
      assert IsDrainCounted(run.Value()) == IsDrainCounted(server.record.versions[base]);
      ghost var d := DecideCall(kind, Child(), base, status, now, outcome);
      CallExtends(kind, Child(), base, status, now, outcome);
      if DrainFinalizer(kind) !in run.finalizers { return; }
      if run.status.terminal {
        err := Finish(gauge, finishOk, base, status);
        return;
      }
      if run.deletedAt.Some? && now - run.deletedAt.value >= CASCADE_DRAIN_TIMEOUT {
        ForceKill();
        err := Finish(gauge, finishOk, base, status);
        return;
      }
      if !run.status.started {
        err := MarkKilled(outcome, base, status);
        if err { return; }
        err := Finish(gauge, finishOk, d.pc.base, server.record.versions[d.pc.base].status);
        return;
      }
      if !IsDrainCounted(run.Value()) {
        err := RequestCancel(outcome, base, status);
        if err { return; }
        gauge.Inc();
        return true, false;
      }
      var terminal;
      terminal, err := Progress(outcome, base, status);
      if err { return; }
      if terminal {
        err := Finish(gauge, finishOk, d.pc.base, server.record.versions[d.pc.base].status);
        return;
      }
      requeue := true;
    }
  }

  /** `ensureDrainFinalizer` on a run that is not being deleted: unless it fails, an active run that nobody
      changed meanwhile now carries the drain finalizer, and nothing else about it changed. */
  method EnsureDrainFinalizer(kind: Kind, server: ApiServer, run: ObjectCopy, answers: bool) returns (err: bool)
    requires run.resourceVersion < |server.record.versions|
    requires run.Value() == server.record.versions[run.resourceVersion] && run.deletedAt.None?
    modifies server, run
    ensures err || run.status.terminal || DrainFinalizer(kind) in old(run.finalizers) ==>
      server.record == old(server.record)
    ensures !err && !run.status.terminal && DrainFinalizer(kind) !in old(run.finalizers) ==>
      && UpToDate(old(server.record), old(run.resourceVersion))
      && server.record == old(server.record).(versions := old(server.record.versions)
           + [old(run.Value()).(finalizers := old(run.finalizers) + {DrainFinalizer(kind)})])
    ensures err <==>
      && !old(run.status).terminal && DrainFinalizer(kind) !in old(run.finalizers)
      && !(answers && UpToDate(old(server.record), old(run.resourceVersion)))
  {
    hide DrainFinalizer;
    if run.status.terminal { return false; }
    if DrainFinalizer(kind) in run.finalizers { return false; }
    run.AddFinalizer(DrainFinalizer(kind));
    UpdateEffect(server.record, run.resourceVersion, run.Value());
    err := server.Update(run.resourceVersion, run.Value(), answers);
  }
}
