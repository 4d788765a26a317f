/** What each kind of deletion leaves behind, and where deletion through the API gets stuck. */
module DeletionOutcomes {
  import opened Wrappers
  import opened KubeObjects
  import opened Ingestion
  import opened NoObjectLost

  // ---- Direct deletes ----

  /** What the ingester has established by the time it is about to take its finalizer off an object that
      was deleted directly. */
  predicate ReadyToRelease(cfg: Config, c: Cell) {
    && c.record.Valid() && c.seen < |c.record.versions|
    && (c.pc.Deciding? || c.pc.Removing? || c.pc.Deleting? ==> c.pc.base == c.seen)
    && (c.pc.Removing? && DeletedDirectly(c.record.versions[c.pc.base]) ==>
          && !c.pc.thenDelete
          && INGESTER_FINALIZER in c.record.versions[c.pc.base].finalizers
          && (cfg.retained ==> c.record.versions[c.pc.base].finalizers == {INGESTER_FINALIZER}
                               && (c.row == Live(c.pc.base) || c.row.Tombstone?))
          && (!cfg.retained ==> !c.row.Live?))
  }

  lemma ReadyStep(cfg: Config, c: Cell, a: Action)
    requires ReadyToRelease(cfg, c)
    ensures ReadyToRelease(cfg, Step(cfg, c, a))
  {
    hide Lookup, Propagation, IsImmutable;
    if Enabled(c, a) {
      if a.Decide? { ReadyDecide(cfg, c, a.ok); }
      else if a.Remove? {
        var o := c.record.versions[c.pc.base];
        UpdateEffect(c.record, c.pc.base, o.(finalizers := o.finalizers - {INGESTER_FINALIZER}));
      }
      else if a.DeleteCall? { DeleteEffect(c.record, a.now, Propagation(c.record.versions[c.pc.base])); }
      else if a.ApiDelete? { MarkEffect(c.record, a.version, a.policy); }
    }
  }

  lemma ReadyDecide(cfg: Config, c: Cell, ok: bool)
    requires ReadyToRelease(cfg, c) && Enabled(c, Decide(ok))
    ensures ReadyToRelease(cfg, Step(cfg, c, Decide(ok)))
  {
    hide Lookup, Propagation, IsImmutable, Update;
    var o := c.record.versions[c.pc.base];
    PrimaryKeyUpdate(c.record, c.pc.base);
    OnlyOurs(o.finalizers);
  }

  lemma OnlyOurs(f: set<string>)
    ensures INGESTER_FINALIZER in f && f - {INGESTER_FINALIZER} == {} ==> f == {INGESTER_FINALIZER}
  {
    if INGESTER_FINALIZER in f && f - {INGESTER_FINALIZER} == {} {
      assert f == (f - {INGESTER_FINALIZER}) + {INGESTER_FINALIZER};
    }
  }

  /** From version `base` on, the object is directly deleted, and every later version is without our
      finalizer; the ingester never looks back before it. */
  predicate AfterRelease(cfg: Config, c: Cell, base: nat) {
    && c.record.Valid() && base < |c.record.versions| && base <= c.seen < |c.record.versions|
    && (c.pc.Deciding? || c.pc.Removing? || c.pc.Deleting? ==> c.pc.base == c.seen)
    && !c.pc.Deleting? && (c.pc.Removing? ==> c.pc.base == base)
    && DeletedDirectly(c.record.versions[base]) && INGESTER_FINALIZER in c.record.versions[base].finalizers
    && (forall k :: base < k < |c.record.versions| ==>
          c.record.versions[k].deletedAt.Some? && INGESTER_FINALIZER !in c.record.versions[k].finalizers)
    && (c.record.present ==> base < c.record.Latest())
  }

  /** The end state: a retained object is gone and its row is the version removed, unless the user has
      had it deleted since; a kind that is not retained has no live row. */
  predicate EndState(cfg: Config, c: Cell, base: nat) {
    if cfg.retained then
      && !c.record.present && base + 1 == |c.record.versions|
      && c.record.versions[base].finalizers == {INGESTER_FINALIZER}
      && (c.row == Live(base) || c.userDeleted)
    else
      !c.row.Live?
  }

  lemma AfterStep(cfg: Config, c: Cell, a: Action, base: nat)
    requires AfterRelease(cfg, c, base) && EndState(cfg, c, base)
    requires c.row.Tombstone? && cfg.retained ==> c.userDeleted
    ensures AfterRelease(cfg, Step(cfg, c, a), base) && EndState(cfg, Step(cfg, c, a), base)
    ensures Step(cfg, c, a).row.Tombstone? && cfg.retained ==> Step(cfg, c, a).userDeleted
  {
    hide Lookup, Propagation, IsImmutable, ServerStep, KeepsFinalizer, Update, Delete, IsDeletingAnnotationSet;
    if Enabled(c, a) {
      if a.Decide? { PrimaryKeyUpdate(c.record, c.pc.base); }
      else if a.Remove? { StaleUpdate(c.record, base); }
      else if a.ApiDelete? { AfterApiDelete(cfg, c, a, base); }
      else if a.Outside? { AfterOutside(cfg, c, a.next, base); }
    }
  }

  /** A write based on the removed version fails. */
  lemma StaleUpdate(r: Record, base: nat)
    requires r.Valid() && (r.present ==> base < r.Latest())
    ensures forall o :: Update(r, base, o).None?
  {
  }

  lemma AfterOutside(cfg: Config, c: Cell, next: Record, base: nat)
    requires AfterRelease(cfg, c, base) && EndState(cfg, c, base) && ServerStep(c.record, next)
    ensures AfterRelease(cfg, c.(record := next), base) && EndState(cfg, c.(record := next), base)
  {
    hide IsDeletingAnnotationSet;
    assert forall k :: 0 <= k < |c.record.versions| ==> next.versions[k] == next.versions[..|c.record.versions|][k];
  }

  lemma AfterApiDelete(cfg: Config, c: Cell, a: Action, base: nat)
    requires AfterRelease(cfg, c, base) && EndState(cfg, c, base) && a.ApiDelete? && Enabled(c, a)
    ensures AfterRelease(cfg, Step(cfg, c, a), base) && EndState(cfg, Step(cfg, c, a), base)
    ensures Step(cfg, c, a).row == c.row || Step(cfg, c, a).userDeleted
  {
    hide IsImmutable, IsDeletingAnnotationSet, Update, ServerStep, KeepsFinalizer, AfterRelease;
    var o := c.record.versions[a.version];
    var u := Update(c.record, a.version, Marked(o, a.policy));
    MarkEffect(c.record, a.version, a.policy) by { assert AfterRelease(cfg, c, base); ValidAfter(cfg, c, base); }
    if u.Some? { ServerStepPresent(c.record, u.value); AfterOutside(cfg, c, u.value, base); }
    ValidAfter(cfg, c, base);
    RowOnly(cfg, c, Step(cfg, c, a), base);
  }

  lemma ValidAfter(cfg: Config, c: Cell, base: nat)
    requires AfterRelease(cfg, c, base)
    ensures c.record.Valid()
  {
  }

  lemma ServerStepPresent(r: Record, r': Record)
    requires ServerStep(r, r')
    ensures r.present
  {
  }

  lemma RowOnly(cfg: Config, c: Cell, d: Cell, base: nat)
    ensures d.record == c.record && d.pc == c.pc && d.seen == c.seen && AfterRelease(cfg, c, base)
      ==> AfterRelease(cfg, d, base)
  {
  }

  lemma {:induction false} AfterRun(cfg: Config, c: Cell, actions: seq<Action>, base: nat)
    requires AfterRelease(cfg, c, base) && EndState(cfg, c, base)
    requires c.row.Tombstone? && cfg.retained ==> c.userDeleted
    ensures AfterRelease(cfg, Run(cfg, c, actions), base) && EndState(cfg, Run(cfg, c, actions), base)
    decreases |actions|
  {
    hide AfterRelease, EndState, Step;
    if actions != [] {
      AfterStep(cfg, c, actions[0], base);
      AfterRun(cfg, Step(cfg, c, actions[0]), actions[1..], base);
    }
  }

  lemma {:induction false} ReadyRun(cfg: Config, c: Cell, actions: seq<Action>)
    requires ReadyToRelease(cfg, c)
    ensures ReadyToRelease(cfg, Run(cfg, c, actions))
    decreases |actions|
  {
    hide ReadyToRelease, Step;
    if actions != [] {
      ReadyStep(cfg, c, actions[0]);
      ReadyRun(cfg, Step(cfg, c, actions[0]), actions[1..]);
    }
  }

  /** End state of a direct delete. Take any run of an object born as usual and never marked for deletion
      through the API, in which the ingester's removal of its finalizer from a deleted version goes
      through. That version was the newest; a retained kind carried no other finalizer, is gone, and its
      row is exactly that version; another kind has no live row. No later run changes this: only the
      user's own delete of a retained row does. */
  lemma DirectDeleteEndState(cfg: Config, born: Cell, before: seq<Action>, after: seq<Action>)
    requires Born(born)
    requires var c := Run(cfg, born, before);
      && c.pc.Removing? && c.pc.base < |c.record.versions| && c.record.versions[c.pc.base].deletedAt.Some?
      && !Requested(c.record)
      && Step(cfg, c, Remove(true)).record != c.record
    ensures var c := Run(cfg, born, before);
      var d := Step(cfg, c, Remove(true));
      && c.pc.base == c.record.Latest()
      && EndState(cfg, d, c.pc.base) && Released(d)
      && EndState(cfg, Run(cfg, d, after), c.pc.base) && Released(Run(cfg, d, after))
  {
    hide Lookup, IsDeletingAnnotationSet, Update, Run;
    var c := Run(cfg, born, before);
    ReadyRun(cfg, born, before);
    RunKeeps(cfg, born, before);
    assert DeletedDirectly(c.record.versions[c.pc.base]);
    var d := Step(cfg, c, Remove(true));
    AtRelease(cfg, c, d);
    AfterRun(cfg, d, after, c.pc.base);
    AfterMeansReleased(cfg, d, c.pc.base);
    AfterMeansReleased(cfg, Run(cfg, d, after), c.pc.base);
  }

  lemma AfterMeansReleased(cfg: Config, c: Cell, base: nat)
    requires AfterRelease(cfg, c, base)
    ensures Released(c)
  {
  }

  lemma AtRelease(cfg: Config, c: Cell, d: Cell)
    requires ReadyToRelease(cfg, c) && NoObjectLost.Inv(cfg, c) && !Requested(c.record)
    requires c.pc.Removing? && DeletedDirectly(c.record.versions[c.pc.base])
    requires d == Step(cfg, c, Remove(true)) && d.record != c.record
    ensures c.pc.base == c.record.Latest()
    ensures AfterRelease(cfg, d, c.pc.base) && EndState(cfg, d, c.pc.base)
    ensures d.row.Tombstone? && cfg.retained ==> d.userDeleted
  {
    hide Requested, IsDeletingAnnotationSet;
    var o := c.record.versions[c.pc.base];
    UpdateEffect(c.record, c.pc.base, o.(finalizers := o.finalizers - {INGESTER_FINALIZER}));
  }

  // ---- Deletes through the API ----

  /** Marked for deletion, not yet deleted in Kubernetes, no live row; the ingester has caught up with the
      mark. */
  predicate Stuck(c: Cell) {
    && c.record.Valid() && c.record.present && c.seen < |c.record.versions| && !c.row.Live?
    && (c.pc.Idle? || (c.pc.Deciding? && c.seen <= c.pc.base < |c.record.versions|))
    && (forall k :: c.seen <= k < |c.record.versions| ==>
          IsDeletingAnnotationSet(c.record.versions[k]) && c.record.versions[k].deletedAt.None?)
  }

  lemma StuckStep(cfg: Config, c: Cell, a: Action)
    requires Stuck(c) && !a.Outside?
    ensures Stuck(Step(cfg, c, a)) && Step(cfg, c, a).row == c.row
  {
    hide IsImmutable;
    if Enabled(c, a) && a.ApiDelete? {
      var o := c.record.versions[a.version];
      MarkEffect(c.record, a.version, a.policy);
      UpdateEffect(c.record, a.version, Marked(o, a.policy));
    }
  }

  /** A marked object without a live row is never deleted: not by the ingester, not by deleting it again
      through the API. `handleDeletionAnnotation` treats the missing row as an error and stops before the
      Kubernetes delete, every time. */
  lemma {:induction false} StuckForever(cfg: Config, c: Cell, actions: seq<Action>)
    requires Stuck(c) && forall a :: a in actions ==> !a.Outside?
    ensures Stuck(Run(cfg, c, actions))
    decreases |actions|
  {
    hide Stuck, Step;
    if actions != [] {
      assert actions[0] in actions;
      StuckStep(cfg, c, actions[0]);
      StuckForever(cfg, Step(cfg, c, actions[0]), actions[1..]);
    }
  }

  /** Exactly when deletion through the API proceeds: an idle ingester that reads the marked object and
      whose calls all go through starts the Kubernetes delete if and only if the row is live. */
  lemma ApiDeletionProceeds(cfg: Config, c: Cell, now: int)
    requires c.record.Valid() && c.record.present && c.pc.Idle? && c.seen < |c.record.versions|
    requires IsDeletingAnnotationSet(c.record.Current()) && c.record.Current().deletedAt.None?
    ensures var d := Run(cfg, c, [Read(c.record.Latest()), Decide(true), DeleteCall(true, now)]);
      && (d.record != c.record <==> c.row.Live?)
      && d.record.Valid()
      && (c.row.Live? ==> d.row.Tombstone? && (!d.record.present || d.record.Current().deletedAt == Some(now)))
      && (!c.row.Live? ==> Stuck(d))
  {
    hide Propagation, Lookup;
    var actions := [Read(c.record.Latest()), Decide(true), DeleteCall(true, now)];
    var c1 := Step(cfg, c, actions[0]);
    var c2 := Step(cfg, c1, actions[1]);
    var c3 := Step(cfg, c2, actions[2]);
    RunThree(cfg, c, actions);
  }

  /** How an object gets stuck: one failed Kubernetes delete after the row was deleted, or a delete that
      the ingester sees before it has ever written the row. */
  lemma FailedDeleteSticks(cfg: Config, c: Cell, now: int)
    requires c.record.Valid() && c.record.present && c.pc.Idle? && c.seen < |c.record.versions|
    requires IsDeletingAnnotationSet(c.record.Current()) && c.record.Current().deletedAt.None?
    ensures Stuck(Run(cfg, c, [Read(c.record.Latest()), Decide(true), DeleteCall(false, now)]))
  {
    hide Propagation, Lookup;
    var actions := [Read(c.record.Latest()), Decide(true), DeleteCall(false, now)];
    RunThree(cfg, c, actions);
  }

  lemma EarlyDeleteSticks(cfg: Config, c: Cell, policy: Option<string>)
    requires Born(c) && !IsImmutable(c.record.Current())
    ensures Stuck(Run(cfg, c, [ApiDelete(true, 0, policy, true), Read(1), Decide(true)]))
  {
    var actions := [ApiDelete(true, 0, policy, true), Read(1), Decide(true)];
    RunThree(cfg, c, actions);
    var o := c.record.versions[0];
    UpdateEffect(c.record, 0, Marked(o, policy));
  }

  // ---- When every call is answered ----

  /** Gone, or being deleted without the ingester's finalizer. */
  predicate Leaving(c: Cell, now: int) {
    !c.record.present
    || (c.record.Valid() && c.record.Current().deletedAt == Some(now)
         && INGESTER_FINALIZER !in c.record.Current().finalizers)
  }

  /** A caught-up, answered reconcile of a live object that is neither marked nor deleted mirrors it; an
      immutable one also leaves Kubernetes, saved as it was. */
  lemma AnsweredReconcileMirrors(cfg: Config, c: Cell, now: int)
    requires c.record.Valid() && c.record.present && c.pc.Idle? && c.seen < |c.record.versions| && !c.row.Tombstone?
    requires var o := c.record.Current();
      o.deletedAt.None? && !IsDeletingAnnotationSet(o) && PRIMARY_KEY_ANNOTATION in o.annotations
    ensures var o := c.record.Current();
      var d := Run(cfg, Run(cfg, c, [Read(c.record.Latest()), Decide(true), Remove(true)]), [DeleteCall(true, now)]);
      && d.row == Live(c.record.Latest())
      && (IsImmutable(o) || cfg.immutableKind ==> Leaving(d, now))
      && (!IsImmutable(o) && !cfg.immutableKind ==> d.record == c.record)
  {
    hide Lookup, Propagation;
    var actions := [Read(c.record.Latest()), Decide(true), Remove(true)];
    RunThree(cfg, c, actions);
    var o := c.record.Current();
    UpdateEffect(c.record, c.record.Latest(), o.(finalizers := o.finalizers - {INGESTER_FINALIZER}));
    RunOne(cfg, Run(cfg, c, actions), DeleteCall(true, now));
    PropagationIsNotOurs(o);
  }

  lemma PropagationIsNotOurs(o: Object)
    ensures INGESTER_FINALIZER !in Propagation(o)
  {
    assert INGESTER_FINALIZER[0] != "foregroundDeletion"[0] && INGESTER_FINALIZER[0] != "orphan"[0];
  }

  // ---- A primary key that has been deleted before ----

  /** As `Create` leaves an object whose primary-key annotation names a row deleted earlier: the lookup
      before the creation does not see tombstones. */
  predicate BornOverTombstone(c: Cell) {
    c.row.Tombstone? && Born(c.(row := NoRow))
  }

  predicate NotLost(cfg: Config, c: Cell) {
    Released(c) ==> c.row.Live? || Excused(cfg, c)
  }

  function MadeImmutable(o: Object): Object {
    o.(annotations := o.annotations[IMMUTABLE_ANNOTATION := "true"][PRIMARY_KEY_ANNOTATION := "uid"])
  }

  /** Made immutable, it is gone from Kubernetes as soon as the ingester believes it saved it. */
  function LosingRun(c: Cell): seq<Action>
    requires c.record.Valid()
  {
    [Outside(c.record.(versions := c.record.versions + [MadeImmutable(c.record.Current())])),
     Read(1), Decide(true), Remove(true)]
  }

  lemma TombstoneLosesObject(cfg: Config, c: Cell)
    requires BornOverTombstone(c) && !IsDeletingAnnotationSet(c.record.Current())
    ensures !NotLost(cfg, Run(cfg, c, LosingRun(c)))
  {
    var actions := LosingRun(c);
    var c1 := Step(cfg, c, actions[0]);
    var o := MadeImmutable(c.record.Current());
    assert IsImmutable(o) && !IsDeletingAnnotationSet(o);
    assert c1.record.versions == c.record.versions + [o];
    RunThree(cfg, c1, actions[1..]);
    UpdateEffect(c1.record, 1, o.(finalizers := o.finalizers - {INGESTER_FINALIZER}));
  }

  /** Objects are safe in every run exactly when they are not born over a tombstone, or are born already
      marked for deletion. */
  lemma SafeIffNoTombstone(cfg: Config, c: Cell)
    requires Born(c.(row := NoRow)) && !c.row.Live?
    ensures (forall actions: seq<Action> :: NotLost(cfg, Run(cfg, c, actions)))
        <==> (c.row == NoRow || IsDeletingAnnotationSet(c.record.Current()))
  {
    hide NotLost, Run, LosingRun, Lookup;
    if c.row == NoRow || IsDeletingAnnotationSet(c.record.Current()) {
      assert NoObjectLost.Inv(cfg, c);
      forall actions: seq<Action>
        ensures NotLost(cfg, Run(cfg, c, actions))
      {
        RunKeeps(cfg, c, actions);
        InvMeansNotLost(cfg, Run(cfg, c, actions));
      }
    } else {
      TombstoneLosesObject(cfg, c);
    }
  }

  lemma InvMeansNotLost(cfg: Config, c: Cell)
    requires NoObjectLost.Inv(cfg, c)
    ensures NotLost(cfg, c)
  {
  }
}
