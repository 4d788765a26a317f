/** The ingester's reconcile as code. Undisturbed, it does what the interleaving machine does when the
    ingester takes all its steps in a row. */
module IngesterStep {
  import opened Wrappers
  import opened KubeObjects
  import opened KubeClient
  import opened Ingestion
  import Laws = IngesterAnswers

  /** How the row store answers a delete. */
  datatype StoreError = NoError | NotFound | Failed

  /** The metadata row of one object. */
  class MetadataStore {
    var row: Row

    constructor ()
      ensures row == NoRow
    {
      row := NoRow;
    }

    method Upsert(version: nat, answers: bool) returns (err: bool)
      modifies this
      ensures err <==> !answers
      ensures row == if err then old(row) else Ingestion.Upsert(old(row), version)
    {
      err := !answers;
      if answers {
        row := Ingestion.Upsert(row, version);
      }
    }

    method Delete(answers: bool) returns (err: StoreError)
      modifies this
      ensures err == if !answers then Failed else if DeleteRow(old(row)).None? then NotFound else NoError
      ensures row == if err == NoError then DeleteRow(old(row)).value else old(row)
    {
      if !answers { return Failed; }
      if !row.Live? { return NotFound; }
      row := Tombstone(row.version);
      err := NoError;
    }
  }

  /** Which of the calls of one reconcile are answered: the first one or two, the removal of the finalizer,
      the Kubernetes delete. */
  datatype Answers = Answers(first: bool, remove: bool, delete: bool, now: int)

  function ReconcileActions(version: nat, calls: Answers): seq<Action> {
    [Read(version), Decide(calls.first), Remove(calls.remove), DeleteCall(calls.delete, calls.now)]
  }

  /** What is left to do after the first calls. */
  function Complete(c: Cell, calls: Answers): Cell
    requires c.pc.Removing? || c.pc.Deleting? ==> c.pc.base < |c.record.versions|
  {
    var d := if c.pc.Removing? then RemoveFinalizer(c, c.pc.base, c.pc.thenDelete, calls.remove) else c;
    if d.pc.Deleting? then DeleteObject(d, d.pc.base, calls.delete, calls.now) else d
  }

  class Reconciler {
    const cfg: Config
    const server: ApiServer
    const store: MetadataStore
    ghost var seen: nat
    ghost var userDeleted: bool

    constructor (cfg: Config, server: ApiServer, store: MetadataStore)
      ensures this.cfg == cfg && this.server == server && this.store == store && seen == 0 && !userDeleted
    {
      this.cfg, this.server, this.store := cfg, server, store;
      seen, userDeleted := 0, false;
    }

    ghost function At(pc: Pc): Cell
      reads this, server, store
    {
      Cell(server.record, store.row, pc, seen, userDeleted)
    }

    ghost predicate Copies(copy: ObjectCopy)
      reads server, copy
    {
      && copy.resourceVersion < |server.record.versions|
      && copy.Value() == server.record.versions[copy.resourceVersion]
    }

    method RemoveIngesterFinalizer(copy: ObjectCopy, answers: bool, ghost thenDelete: bool) returns (err: bool)
      requires Copies(copy)
      modifies copy, server
      ensures copy.resourceVersion == old(copy.resourceVersion)
      ensures var base := old(copy.resourceVersion);
        var c := RemoveFinalizer(old(At(Removing(base, thenDelete))), base, thenDelete, answers);
        && c == At(if !err && thenDelete then Deleting(base) else Idle)
        && copy.Value().annotations == old(copy.Value().annotations)
        && |server.record.versions| >= |old(server.record.versions)|
        && server.record.versions[..|old(server.record.versions)|] == old(server.record.versions)
    {
      ghost var o := server.record.versions[copy.resourceVersion];
      copy.RemoveFinalizer(INGESTER_FINALIZER);
      assert copy.Value() == o.(finalizers := o.finalizers - {INGESTER_FINALIZER});
      err := server.Update(copy.resourceVersion, copy.Value(), answers);
    }

    method DeleteFromKubernetes(copy: ObjectCopy, calls: Answers)
      requires copy.resourceVersion < |server.record.versions|
      requires copy.annotations == server.record.versions[copy.resourceVersion].annotations
      modifies server
      ensures At(Idle)
        == DeleteObject(old(At(Deleting(copy.resourceVersion))), copy.resourceVersion, calls.delete, calls.now)
      ensures var r := old(server.record);
        calls.delete && r.Valid() && r.present && r.Current().deletedAt.None?
          && r.Current().annotations == copy.annotations ==>
            Laws.DeletedFrom(r.Current(), r, calls.now, server.record)
    {
      hide Propagation, Laws.DeletedFrom;
      ghost var r := server.record;
      Laws.SameAnnotations(copy.Value(), r.versions[copy.resourceVersion]);
      if r.Valid() && r.present && r.Current().deletedAt.None? && r.Current().annotations == copy.annotations {
        Laws.DeleteIs(r, calls.now, copy.Value());
      }
      var err := server.Delete(calls.now, Propagation(copy.Value()), calls.delete);
    }

    method HandleSync(copy: ObjectCopy, calls: Answers) returns (err: bool)
      modifies store
      ensures store.row
        == if calls.first then Ingestion.Upsert(old(store.row), copy.resourceVersion) else old(store.row)
      ensures err <==> !calls.first
    {
      err := store.Upsert(copy.resourceVersion, calls.first);
    }

    /** Saved first, then released by the ingester, then deleted. */
    method HandleImmutableObject(copy: ObjectCopy, calls: Answers)
      requires Copies(copy)
      modifies copy, server, store
      ensures var base := old(copy.resourceVersion);
        var c := old(At(Idle)).(row := Ingestion.Upsert(old(store.row), base), pc := Removing(base, true));
        At(Idle) == if calls.first then Complete(c, calls).(pc := Idle) else old(At(Idle))
      ensures var r := old(server.record);
        calls.first && calls.remove && calls.delete && UpToDate(r, old(copy.resourceVersion))
          && r.Current().deletedAt.None? ==>
            var n := Laws.Unguarded(r.Current());
            Laws.DeletedFrom(n, r.(versions := r.versions + [n]), calls.now, server.record)
    {
      hide Delete, Propagation, Laws.DeletedFrom;
      var err := store.Upsert(copy.resourceVersion, calls.first);
      if err { return; }
      err := RemoveIngesterFinalizer(copy, calls.remove, true);
      if err { return; }
      DeleteFromKubernetes(copy, calls);
    }

    /** The row goes first; a missing row is an error here. */
    method HandleDeletionAnnotation(copy: ObjectCopy, calls: Answers)
      requires Copies(copy)
      modifies server, store
      ensures var base := copy.resourceVersion;
        At(Idle)
          == Complete(Ingestion.HandleDeletionAnnotation(old(At(Deciding(base))), base, calls.first), calls)
               .(pc := Idle)
      ensures var r := old(server.record);
        calls.first && calls.delete && UpToDate(r, copy.resourceVersion) && r.Current().deletedAt.None?
          && old(store.row).Live? ==>
            Laws.DeletedFrom(r.Current(), r, calls.now, server.record)
    {
      hide Delete, Propagation, Laws.DeletedFrom;
      var err := store.Delete(calls.first);
      if err != NoError { return; }
      DeleteFromKubernetes(copy, calls);
    }

    method HandleCascadeDeletion(copy: ObjectCopy, calls: Answers) returns (wait: bool, err: bool)
      requires Copies(copy)
      modifies store
      ensures var base := copy.resourceVersion;
        At(if err || wait then Idle else Removing(base, false))
        == Ingestion.HandleCascadeDeletion(cfg, old(At(Deciding(base))), base, calls.first)
    {
      wait, err := false, false;
      if !cfg.retained {
        var e := store.Delete(calls.first);
        err := e == Failed;
      } else if copy.finalizers - {INGESTER_FINALIZER} != {} {
        err := store.Upsert(copy.resourceVersion, calls.first);
        wait := true;
      } else {
        err := store.Upsert(copy.resourceVersion, calls.first);
      }
    }

    method HandleDeletion(copy: ObjectCopy, calls: Answers)
      requires Copies(copy)
      modifies copy, server, store
      ensures var base := old(copy.resourceVersion);
        At(Idle)
          == Complete(Ingestion.HandleDeletion(cfg, old(At(Deciding(base))), base, calls.first), calls).(pc := Idle)
    {
      hide Update, Delete, Propagation;
      if INGESTER_FINALIZER !in copy.finalizers { return; }
      if !IsDeletingAnnotationSet(copy.Value()) {
        var wait, err := HandleCascadeDeletion(copy, calls);
        if err || wait { return; }
      }
      var err := RemoveIngesterFinalizer(copy, calls.remove, false);
    }

    method EnsurePrimaryKey(copy: ObjectCopy, answers: bool) returns (updated: bool, err: bool)
      requires Copies(copy)
      modifies copy, server
      ensures updated || err <==> PRIMARY_KEY_ANNOTATION !in old(copy.annotations)
      ensures !updated && !err ==> Copies(copy) && copy.resourceVersion == old(copy.resourceVersion)
      ensures !updated ==> server.record == old(server.record)
      ensures updated || err ==> var o := old(copy.Value());
        var r := Update(old(server.record), old(copy.resourceVersion), WithPrimaryKey(o));
        server.record == if answers && r.Some? then r.value else old(server.record)
    {
      hide KubeObjects.Update;
      updated, err := false, false;
      if PRIMARY_KEY_ANNOTATION in copy.annotations { return; }
      copy.Annotate(PRIMARY_KEY_ANNOTATION, "uid");
      assert copy.Value() == WithPrimaryKey(old(copy.Value()));
      err := server.Update(copy.resourceVersion, copy.Value(), answers);
      updated := !err;
    }

    /** One reconcile of the copy read from the cache: exactly the ingester's steps of the machine. */
    method Reconcile(copy: ObjectCopy, calls: Answers)
      requires Copies(copy) && seen <= copy.resourceVersion
      modifies this, copy, server, store
      ensures var base := old(copy.resourceVersion);
        At(Idle) == Run(cfg, old(At(Idle)), ReconcileActions(base, calls)).(pc := Idle)
    {
      ReconcileIsARun(cfg, At(Idle), copy.resourceVersion, calls);
      hide Update, Delete, Propagation, Run, Complete, Lookup;
      seen := copy.resourceVersion;
      if copy.deletedAt.Some? {
        HandleDeletion(copy, calls);
        return;
      }
      if IsDeletingAnnotationSet(copy.Value()) {
        HandleDeletionAnnotation(copy, calls);
        return;
      }
      var updated, err := EnsurePrimaryKey(copy, calls.first);
      if updated || err { return; }
      if IsImmutable(copy.Value()) || cfg.immutableKind {
        HandleImmutableObject(copy, calls);
        return;
      }
      err := HandleSync(copy, calls);
    }
  }

  lemma ReconcileIsARun(cfg: Config, c: Cell, base: nat, calls: Answers)
    requires c.pc.Idle? && c.seen <= base < |c.record.versions|
    ensures Run(cfg, c, ReconcileActions(base, calls)).(pc := Idle)
         == Complete(Ingestion.Reconcile(cfg, c.(pc := Deciding(base), seen := base), base, calls.first), calls)
              .(pc := Idle)
  {
    hide IsImmutable, Lookup, Update, Delete, Propagation, WithPrimaryKey;
    var a := ReconcileActions(base, calls);
    var c1 := Step(cfg, c, a[0]);
    var c2 := Step(cfg, c1, a[1]);
    var c3 := Step(cfg, c2, a[2]);
    RunFour(cfg, c, a);
    assert c2 == Ingestion.Reconcile(cfg, c1, base, calls.first);
    VersionsGrow(c2, calls);
    assert c3 == if c2.pc.Removing? then RemoveFinalizer(c2, c2.pc.base, c2.pc.thenDelete, calls.remove) else c2;
  }

  lemma VersionsGrow(c: Cell, calls: Answers)
    requires c.pc.Removing? ==> c.pc.base < |c.record.versions|
    ensures c.pc.Removing? ==>
      |RemoveFinalizer(c, c.pc.base, c.pc.thenDelete, calls.remove).record.versions| >= |c.record.versions|
  {
  }
}
