/** What holds whenever the ingester lets go of an immutable object, in any run. */
module ImmutableRelease {
  import opened Wrappers
  import opened KubeObjects
  import opened Ingestion
  import opened NoObjectLost

  /** Once deleted, a version stays deleted in all later ones. */
  predicate DeletionStays(r: Record) {
    forall j, k :: 0 <= j <= k < |r.versions| && r.versions[j].deletedAt.Some? ==> r.versions[k].deletedAt.Some?
  }

  predicate WasDeleted(r: Record) {
    exists k :: 0 <= k < |r.versions| && r.versions[k].deletedAt.Some?
  }

  /** Why a row may be stamped as deleted: it was so at birth, the user deleted it, deletion was requested
      through the API, or the object has been deleted. */
  predicate Stamped(bornOver: bool, c: Cell) {
    bornOver || c.userDeleted || Requested(c.record) || WasDeleted(c.record)
  }

  predicate KeptAsImmutable(cfg: Config, o: Object) {
    o.deletedAt.None? && !IsDeletingAnnotationSet(o) && (IsImmutable(o) || cfg.immutableKind)
  }

  /** Between saving an immutable object and letting go of it, the row is the version to be released. */
  predicate Saved(cfg: Config, bornOver: bool, c: Cell) {
    && c.record.Valid() && c.seen < |c.record.versions| && DeletionStays(c.record)
    && (c.pc.Deciding? || c.pc.Removing? || c.pc.Deleting? ==> c.pc.base < |c.record.versions|)
    && (c.row.Tombstone? ==> Stamped(bornOver, c))
    && (c.pc.Removing? && c.pc.thenDelete ==>
          KeptAsImmutable(cfg, c.record.versions[c.pc.base]) && !c.row.NoRow? && c.row.version == c.pc.base)
  }

  // ---- Every step keeps it ----

  lemma DeletionStaysOn(r: Record, r': Record)
    requires ServerStep(r, r') && DeletionStays(r)
    ensures DeletionStays(r') && Extends(r, r') && r'.Valid()
  {
    if r'.present {
      var last := |r.versions|;
      assert forall i :: 0 <= i < last ==> r'.versions[i] == r'.versions[..last][i] == r.versions[i];
    }
  }

  lemma StampStays(bornOver: bool, c: Cell, c': Cell)
    requires Extends(c.record, c'.record) && (c.userDeleted ==> c'.userDeleted) && Stamped(bornOver, c)
    ensures Stamped(bornOver, c')
  {
    assert forall k :: 0 <= k < |c.record.versions| ==>
      c'.record.versions[k] == c'.record.versions[..|c.record.versions|][k];
  }

  /** A request that leaves the row alone. */
  lemma RecordKeeps(cfg: Config, bornOver: bool, c: Cell, r: Record, pc: Pc)
    requires Saved(cfg, bornOver, c) && ServerStep(c.record, r)
    requires pc == c.pc || pc.Idle? || (pc.Deleting? && pc.base < |c.record.versions|)
    ensures Saved(cfg, bornOver, c.(record := r, pc := pc))
  {
    hide ServerStep, Stamped, KeptAsImmutable, DeletionStays;
    DeletionStaysOn(c.record, r);
    if c.row.Tombstone? { StampStays(bornOver, c, c.(record := r, pc := pc)); }
    assert forall k :: 0 <= k < |c.record.versions| ==> r.versions[k] == r.versions[..|c.record.versions|][k];
  }

  lemma DecideSaves(cfg: Config, bornOver: bool, c: Cell, ok: bool)
    requires Saved(cfg, bornOver, c) && Enabled(c, Decide(ok))
    ensures Saved(cfg, bornOver, Step(cfg, c, Decide(ok)))
  {
    hide IsDeletingAnnotationSet, IsImmutable, Update, ServerStep, DeletionStays;
    var base := c.pc.base;
    var o := c.record.versions[base];
    if o.deletedAt.None? && !IsDeletingAnnotationSet(o) && PRIMARY_KEY_ANNOTATION !in o.annotations {
      PrimaryKeyUpdate(c.record, base);
      var u := Update(c.record, base, WithPrimaryKey(o));
      if ok && u.Some? { RecordKeeps(cfg, bornOver, c, u.value, Idle); }
    }
  }

  lemma StepSaves(cfg: Config, bornOver: bool, c: Cell, a: Action)
    requires Saved(cfg, bornOver, c)
    ensures Saved(cfg, bornOver, Step(cfg, c, a))
  {
    hide Reconcile, ServerStep, KeepsFinalizer, Requested, WasDeleted, KeptAsImmutable, DeletionStays, IsImmutable;
    hide Update, Delete, Propagation;
    if Enabled(c, a) {
      if a.Decide? { DecideSaves(cfg, bornOver, c, a.ok); }
      else if a.Remove? {
        var o := c.record.versions[c.pc.base];
        var n := o.(finalizers := o.finalizers - {INGESTER_FINALIZER});
        UpdateEffect(c.record, c.pc.base, n);
        if a.ok && Update(c.record, c.pc.base, n).Some? {
          RecordKeeps(cfg, bornOver, c, Update(c.record, c.pc.base, n).value, Step(cfg, c, a).pc);
        }
      }
      else if a.DeleteCall? {
        var p := Propagation(c.record.versions[c.pc.base]);
        DeleteEffect(c.record, a.now, p);
        var u := Delete(c.record, a.now, p);
        if a.ok && u.Some? && u.value != c.record { RecordKeeps(cfg, bornOver, c, u.value, Idle); }
      }
      else if a.ApiDelete? { ApiDeleteSaves(cfg, bornOver, c, a); }
      else if a.Outside? { RecordKeeps(cfg, bornOver, c, a.next, c.pc); }
    }
  }

  lemma ApiDeleteSaves(cfg: Config, bornOver: bool, c: Cell, a: Action)
    requires Saved(cfg, bornOver, c) && a.ApiDelete? && Enabled(c, a)
    ensures Saved(cfg, bornOver, Step(cfg, c, a))
  {
    hide ServerStep, KeepsFinalizer, KeptAsImmutable, DeletionStays, IsImmutable, Update;
    var o := c.record.versions[a.version];
    var u := Update(c.record, a.version, Marked(o, a.policy));
    MarkEffect(c.record, a.version, a.policy);
    if u.Some? { RecordKeeps(cfg, bornOver, c, u.value, c.pc); }
  }

  lemma {:induction false} RunSaves(cfg: Config, bornOver: bool, c: Cell, actions: seq<Action>)
    requires Saved(cfg, bornOver, c)
    ensures Saved(cfg, bornOver, Run(cfg, c, actions))
    decreases |actions|
  {
    hide Saved, Step;
    if actions != [] {
      StepSaves(cfg, bornOver, c, actions[0]);
      RunSaves(cfg, bornOver, Step(cfg, c, actions[0]), actions[1..]);
    }
  }

  // ---- The release ----

  /** Take any run of an object born with or without a deleted row under its primary key, in which the ingester's
      removal of its finalizer from an immutable object goes through. The version released was the newest, was
      neither deleted nor marked, and is what is left but for the finalizer; and the row holds that very version,
      live unless the row was deleted at birth, has been deleted by the user, or deletion had been requested through
      the API and the request withdrawn. */
  lemma ImmutableReleaseIsSaved(cfg: Config, born: Cell, before: seq<Action>)
    requires Born(born.(row := NoRow)) && !born.row.Live?
    requires var c := Run(cfg, born, before);
      && c.pc.Removing? && c.pc.thenDelete && c.pc.base < |c.record.versions|
      && Step(cfg, c, Remove(true)).record != c.record
    ensures var c := Run(cfg, born, before);
      var d := Step(cfg, c, Remove(true));
      var base := c.pc.base;
      && c.record.Valid() && base == c.record.Latest() && KeptAsImmutable(cfg, c.record.versions[base])
      && d.record.present && |d.record.versions| == base + 2
      && d.record.versions[base + 1]
           == c.record.versions[base].(finalizers := c.record.versions[base].finalizers - {INGESTER_FINALIZER})
      && (d.row == Live(base)
          || (d.row == Tombstone(base) && (born.row.Tombstone? || d.userDeleted || Requested(c.record))))
  {
    var c := Run(cfg, born, before);
    assert Saved(cfg, born.row.Tombstone?, born) by { hide Run; }
    RunSaves(cfg, born.row.Tombstone?, born, before);
    hide Run, Requested, KeptAsImmutable;
    AtImmutableRelease(cfg, born.row.Tombstone?, c);
  }

  lemma AtImmutableRelease(cfg: Config, bornOver: bool, c: Cell)
    requires Saved(cfg, bornOver, c) && c.pc.Removing? && c.pc.thenDelete
    requires Step(cfg, c, Remove(true)).record != c.record
    ensures var d := Step(cfg, c, Remove(true));
      var base := c.pc.base;
      && base == c.record.Latest() && KeptAsImmutable(cfg, c.record.versions[base])
      && d.record.present && |d.record.versions| == base + 2
      && d.record.versions[base + 1]
           == c.record.versions[base].(finalizers := c.record.versions[base].finalizers - {INGESTER_FINALIZER})
      && (d.row == Live(base)
          || (d.row == Tombstone(base) && (bornOver || d.userDeleted || Requested(c.record))))
  {
    hide Requested, IsDeletingAnnotationSet, IsImmutable;
    assert c.record.versions[c.pc.base].deletedAt.None?;
  }
}
