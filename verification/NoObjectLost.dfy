/** No object is lost between Kubernetes and the metadata store, and how direct deletes end. */
module NoObjectLost {
  import opened Wrappers
  import opened KubeObjects
  import opened Ingestion

  /** As `Create` leaves it: with the ingester finalizer, and no row under its primary key. */
  predicate Born(c: Cell) {
    && |c.record.versions| == 1 && c.record.present && c.record.Current().deletedAt.None?
    && INGESTER_FINALIZER in c.record.Current().finalizers
    && c.row == NoRow && c.pc == Idle && c.seen == 0 && !c.userDeleted
  }

  /** Deletion was requested through the API. */
  predicate Requested(r: Record) {
    exists k :: 0 <= k < |r.versions| && IsDeletingAnnotationSet(r.versions[k])
  }

  predicate DeletedDirectly(o: Object) {
    o.deletedAt.Some? && !IsDeletingAnnotationSet(o)
  }

  /** The ways in which an object may legitimately leave no live row. */
  predicate Excused(cfg: Config, c: Cell) {
    || Requested(c.record)
    || (!cfg.retained && exists k :: 0 <= k < |c.record.versions| && DeletedDirectly(c.record.versions[k]))
    || c.userDeleted
  }

  predicate Kept(cfg: Config, c: Cell) {
    c.row.Live? || Excused(cfg, c)
  }

  /** Kubernetes no longer holds the object for the ingester. */
  predicate Released(c: Cell) {
    c.record.Valid() && (!c.record.present || INGESTER_FINALIZER !in c.record.Current().finalizers)
  }

  predicate Inv(cfg: Config, c: Cell) {
    && c.record.Valid() && c.seen < |c.record.versions|
    && (c.pc.Deciding? || c.pc.Removing? || c.pc.Deleting? ==> c.pc.base < |c.record.versions|)
    && (c.row.Tombstone? ==> Excused(cfg, c))
    && (c.pc.Removing? || Released(c) ==> Kept(cfg, c))
  }

  lemma ExcuseStays(cfg: Config, c: Cell, c': Cell)
    requires Extends(c.record, c'.record) && (c.userDeleted ==> c'.userDeleted) && Excused(cfg, c)
    ensures Excused(cfg, c')
  {
    assert forall k :: 0 <= k < |c.record.versions| ==>
      c'.record.versions[k] == c'.record.versions[..|c.record.versions|][k];
  }

  lemma ServerStepExtends(r: Record, r': Record)
    requires ServerStep(r, r')
    ensures Extends(r, r') && r'.Valid()
  {
  }

  lemma AnnotatedExcuses(cfg: Config, c: Cell, k: nat)
    requires k < |c.record.versions|
    ensures IsDeletingAnnotationSet(c.record.versions[k]) ==> Excused(cfg, c)
    ensures !cfg.retained && DeletedDirectly(c.record.versions[k]) ==> Excused(cfg, c)
  {
  }

  /** A change of the record that leaves the row alone keeps the invariant, if a release is covered. */
  lemma RecordChange(cfg: Config, c: Cell, r: Record, pc: Pc)
    requires Inv(cfg, c) && ServerStep(c.record, r)
    requires KeepsFinalizer(c.record, r, INGESTER_FINALIZER) || Kept(cfg, c)
    requires pc == c.pc || pc.Idle? || (pc.Deleting? && pc.base < |c.record.versions|)
    ensures Inv(cfg, c.(record := r, pc := pc))
  {
    hide IsDeletingAnnotationSet, DeletedDirectly, Extends, Excused;
    ServerStepExtends(c.record, r);
    var c' := c.(record := r, pc := pc);
    if Excused(cfg, c) { ExcuseStays(cfg, c, c'); }
    assert |c.record.versions| <= |r.versions|;
  }

  lemma DecideKeeps(cfg: Config, c: Cell, ok: bool)
    requires Inv(cfg, c) && Enabled(c, Decide(ok))
    ensures Inv(cfg, Step(cfg, c, Decide(ok)))
  {
    hide IsDeletingAnnotationSet, IsImmutable, Update, Excused, ServerStep, KeepsFinalizer;
    var base := c.pc.base;
    var o := c.record.versions[base];
    AnnotatedExcuses(cfg, c, base);
    SameExcuse(cfg, c, Step(cfg, c, Decide(ok)));
    if o.deletedAt.None? && !IsDeletingAnnotationSet(o) && PRIMARY_KEY_ANNOTATION !in o.annotations {
      PrimaryKeyUpdate(c.record, base);
      var r := Update(c.record, base, WithPrimaryKey(o));
      if ok && r.Some? { RecordChange(cfg, c, r.value, Idle); }
    }
  }

  lemma SameExcuse(cfg: Config, c: Cell, d: Cell)
    ensures c.record == d.record && c.userDeleted == d.userDeleted ==> (Excused(cfg, c) <==> Excused(cfg, d))
  {
  }

  lemma PrimaryKeyUpdate(r: Record, base: nat)
    requires r.Valid() && base < |r.versions|
    ensures var u := Update(r, base, WithPrimaryKey(r.versions[base]));
      u.Some? ==>
        && ServerStep(r, u.value)
        && (r.versions[base].deletedAt.None? ==> KeepsFinalizer(r, u.value, INGESTER_FINALIZER))
  {
    UpdateEffect(r, base, WithPrimaryKey(r.versions[base]));
  }

  lemma RemoveKeeps(cfg: Config, c: Cell, ok: bool)
    requires Inv(cfg, c) && Enabled(c, Remove(ok))
    ensures Inv(cfg, Step(cfg, c, Remove(ok)))
  {
    hide Update, Excused, ServerStep, KeepsFinalizer;
    var base := c.pc.base;
    var o := c.record.versions[base];
    var n := o.(finalizers := o.finalizers - {INGESTER_FINALIZER});
    UpdateEffect(c.record, base, n);
    SameExcuse(cfg, c, c.(pc := Idle));
    if ok && Update(c.record, base, n).Some? {
      RecordChange(cfg, c, Update(c.record, base, n).value, if c.pc.thenDelete then Deleting(base) else Idle);
    }
  }

  lemma DeleteEffect(r: Record, now: int, propagation: set<string>)
    requires r.Valid()
    ensures var d := Delete(r, now, propagation);
      d.Some? ==> d.value == r || (ServerStep(r, d.value) && forall f :: KeepsFinalizer(r, d.value, f))
  {
  }

  lemma DeleteCallKeeps(cfg: Config, c: Cell, ok: bool, now: int)
    requires Inv(cfg, c) && Enabled(c, DeleteCall(ok, now))
    ensures Inv(cfg, Step(cfg, c, DeleteCall(ok, now)))
  {
    hide Excused, ServerStep, KeepsFinalizer, Delete, Propagation;
    var p := Propagation(c.record.versions[c.pc.base]);
    DeleteEffect(c.record, now, p);
    SameExcuse(cfg, c, c.(pc := Idle));
    var r := Delete(c.record, now, p);
    if ok && r.Some? && r.value != c.record { RecordChange(cfg, c, r.value, Idle); }
  }

  lemma ApiDeleteKeeps(cfg: Config, c: Cell, found: bool, version: nat, policy: Option<string>, ok: bool)
    requires Inv(cfg, c) && Enabled(c, ApiDelete(found, version, policy, ok))
    ensures Inv(cfg, Step(cfg, c, ApiDelete(found, version, policy, ok)))
  {
    hide IsImmutable, Update, ServerStep, KeepsFinalizer, Requested;
    var o := c.record.versions[version];
    var n := Marked(o, policy);
    MarkEffect(c.record, version, policy);
    var r := Update(c.record, version, n);
    if r.Some? && Step(cfg, c, ApiDelete(found, version, policy, ok)).record != c.record {
      RecordChange(cfg, c, r.value, c.pc);
    }
  }

  lemma MarkEffect(r: Record, base: nat, policy: Option<string>)
    requires r.Valid() && base < |r.versions|
    ensures var o := r.versions[base];
      var u := Update(r, base, Marked(o, policy));
      u.Some? ==> ServerStep(r, u.value) && KeepsFinalizer(r, u.value, INGESTER_FINALIZER)
  {
    var o := r.versions[base];
    UpdateEffect(r, base, Marked(o, policy));
  }

  lemma StepKeeps(cfg: Config, c: Cell, a: Action)
    requires Inv(cfg, c)
    ensures Inv(cfg, Step(cfg, c, a))
  {
    hide Excused, Reconcile, RemoveFinalizer, DeleteObject, HandleApiDelete, ServerStep, KeepsFinalizer;
    if Enabled(c, a) {
      if a.Read? { SameExcuse(cfg, c, Step(cfg, c, a)); }
      else if a.Decide? { DecideKeeps(cfg, c, a.ok); }
      else if a.Remove? { RemoveKeeps(cfg, c, a.ok); }
      else if a.DeleteCall? { DeleteCallKeeps(cfg, c, a.ok, a.now); }
      else if a.ApiDelete? { ApiDeleteKeeps(cfg, c, a.found, a.version, a.policy, a.ok); }
      else { RecordChange(cfg, c, a.next, c.pc); }
    }
  }

  lemma {:induction false} RunKeeps(cfg: Config, c: Cell, actions: seq<Action>)
    requires Inv(cfg, c)
    ensures Inv(cfg, Run(cfg, c, actions))
    decreases |actions|
  {
    hide Inv, Step;
    if actions != [] {
      StepKeeps(cfg, c, actions[0]);
      RunKeeps(cfg, Step(cfg, c, actions[0]), actions[1..]);
    }
  }

  /** No object is lost. In every reachable state of an object born with the ingester finalizer and without
      a row: once the finalizer or the object is gone from Kubernetes, its row is live, or its deletion was
      requested through the API, or its kind is not retained and it was deleted directly. */
  lemma NoObjectIsLost(cfg: Config, c: Cell, actions: seq<Action>)
    requires Born(c)
    ensures var d := Run(cfg, c, actions);
      d.record.Valid() && (Released(d) ==> d.row.Live? || Excused(cfg, d))
  {
    RunKeeps(cfg, c, actions);
  }
}
