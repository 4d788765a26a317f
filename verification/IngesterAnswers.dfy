/** What one reconcile of the newest version achieves when every call is answered, branch by branch, on the
    stored versions and the row; and how a delete request through the API reaches the stored object. Objects are
    described by the names that are stored. */
module IngesterAnswers {
  import opened Wrappers
  import opened KubeObjects
  import opened Ingestion

  // ---- Objects, by the names that are stored ----

  predicate IsSet(o: Object, key: string) {
    key in o.annotations && o.annotations[key] == "true"
  }

  predicate IsMarked(o: Object) {
    IsSet(o, "michelangelo/Deleting")
  }

  predicate MarkedImmutable(o: Object) {
    IsSet(o, "michelangelo/Immutable")
  }

  predicate Guarded(o: Object) {
    "michelangelo/Ingester" in o.finalizers
  }

  function Unguarded(o: Object): Object {
    o.(finalizers := o.finalizers - {"michelangelo/Ingester"})
  }

  predicate Asks(o: Object, policy: string) {
    "michelangelo/DeletePropagation" in o.annotations && o.annotations["michelangelo/DeletePropagation"] == policy
  }

  /** A live object on which a Kubernetes delete was carried out: deleted now, with the finalizer of the recorded
      policy and no other new one; gone if that leaves none. */
  predicate DeletedFrom(o: Object, r: Record, now: int, r': Record) {
    var f := o.finalizers + (if Asks(o, "Foreground") then {"foregroundDeletion"} else {})
             + (if Asks(o, "Orphan") then {"orphan"} else {});
    if f == {} then r' == r.(present := false)
    else r' == r.(versions := r.versions + [o.(deletedAt := Some(now), finalizers := f)])
  }

  /** One more version; for a deleted object without finalizers, none. */
  predicate Stored(n: Object, r: Record, r': Record) {
    if n.deletedAt.Some? && n.finalizers == {} then r' == r.(present := false)
    else r' == r.(versions := r.versions + [n])
  }

  /** The row after a save of version v: a stamp stays. */
  predicate SavedAs(row: Row, v: nat, row': Row) {
    row' == if row.Tombstone? then Tombstone(v) else Live(v)
  }

  /** The row after a delete. */
  predicate Stamped(row: Row, row': Row) {
    row' == if row.Live? then Tombstone(row.version) else row
  }

  lemma Names(o: Object)
    ensures INGESTER_FINALIZER == "michelangelo/Ingester"
    ensures IsDeletingAnnotationSet(o) <==> IsMarked(o)
    ensures IsImmutable(o) <==> MarkedImmutable(o)
    ensures PRIMARY_KEY_ANNOTATION == "michelangelo/MetadataStoragePrimaryKey"
    ensures Propagation(o) == (if Asks(o, "Foreground") then {"foregroundDeletion"} else {})
                              + (if Asks(o, "Orphan") then {"orphan"} else {})
  {
    assert "Foreground" != "Orphan" by { assert |"Foreground"| != |"Orphan"|; }
    assert "" != "Orphan" && "" != "Foreground" by { assert |""| != |"Orphan"| && |""| != |"Foreground"|; }
  }

  /** The server's answer to a delete with the policy recorded on o, of a live object with o's annotations. */
  lemma DeleteIs(r: Record, now: int, o: Object)
    requires r.Valid() && r.present && r.Current().deletedAt.None? && r.Current().annotations == o.annotations
    ensures Delete(r, now, Propagation(o)).Some?
    ensures DeletedFrom(r.Current(), r, now, Delete(r, now, Propagation(o)).value)
  {
    Names(o);
    var f := r.Current().finalizers;
    var a := if Asks(o, "Foreground") then {"foregroundDeletion"} else {};
    var b := if Asks(o, "Orphan") then {"orphan"} else {};
    hide Asks, Propagation;
    assert f + (a + b) == f + a + b;
    assert forall p :: Asks(o, p) <==> Asks(r.Current(), p) by { SameAnnotations(o, r.Current()); }
  }

  lemma SameAnnotations(o: Object, n: Object)
    requires o.annotations == n.annotations
    ensures forall p :: Asks(o, p) <==> Asks(n, p)
    ensures Propagation(o) == Propagation(n)
  {
  }

  /** An idle ingester that has not yet gone past the newest version of an object that exists. */
  predicate Ready(c: Cell) {
    c.record.Valid() && c.record.present && c.pc.Idle? && c.seen < |c.record.versions|
  }

  /** The four calls of a reconcile of the newest version, all answered. */
  function Answered(cfg: Config, c: Cell, now: int): Cell
    requires c.record.Valid()
  {
    Run(cfg, c, [Read(c.record.Latest()), Decide(true), Remove(true), DeleteCall(true, now)])
  }

  lemma AnsweredIs(cfg: Config, c: Cell, now: int)
    requires Ready(c)
    ensures var c1 := c.(pc := Deciding(c.record.Latest()), seen := c.record.Latest());
      var c2 := Reconcile(cfg, c1, c.record.Latest(), true);
      Answered(cfg, c, now) == Step(cfg, Step(cfg, c2, Remove(true)), DeleteCall(true, now))
  {
    hide Reconcile, RemoveFinalizer, DeleteObject;
    RunFour(cfg, c, [Read(c.record.Latest()), Decide(true), Remove(true), DeleteCall(true, now)]);
  }

  // ---- Objects that are being deleted ----

  /** Without the ingester's finalizer nothing is done. */
  lemma UnguardedIsLeftAlone(cfg: Config, c: Cell, now: int)
    requires Ready(c) && c.record.Current().deletedAt.Some? && !Guarded(c.record.Current())
    ensures var d := Answered(cfg, c, now); d.record == c.record && d.row == c.row && d.pc.Idle?
  {
    Names(c.record.Current());
    AnsweredIs(cfg, c, now);
    hide Run, Lookup, Propagation, RemoveFinalizer, DeleteObject;
  }

  /** Marked by the API: the finalizer comes off, the row has been dealt with before. */
  lemma MarkedIsReleased(cfg: Config, c: Cell, now: int)
    requires Ready(c) && c.record.Current().deletedAt.Some? && Guarded(c.record.Current())
    requires IsMarked(c.record.Current())
    ensures var d := Answered(cfg, c, now);
      Stored(Unguarded(c.record.Current()), c.record, d.record) && d.row == c.row && d.pc.Idle?
  {
    Names(c.record.Current());
    AnsweredIs(cfg, c, now);
    hide Run, Lookup, Propagation, DeleteObject;
  }

  /** Deleted directly, kind not retained: the row is stamped, then the finalizer comes off. */
  lemma DirectIsStamped(cfg: Config, c: Cell, now: int)
    requires Ready(c) && c.record.Current().deletedAt.Some? && Guarded(c.record.Current())
    requires !IsMarked(c.record.Current()) && !cfg.retained
    ensures var d := Answered(cfg, c, now);
      Stored(Unguarded(c.record.Current()), c.record, d.record) && Stamped(c.row, d.row) && d.pc.Idle?
  {
    Names(c.record.Current());
    AnsweredIs(cfg, c, now);
    hide Run, Lookup, Propagation, DeleteObject;
  }

  /** A retained kind is saved as it is; while another finalizer stands that is all, otherwise the object is released
      and gone. */
  lemma RetainedIsSaved(cfg: Config, c: Cell, now: int)
    requires Ready(c) && c.record.Current().deletedAt.Some? && Guarded(c.record.Current())
    requires !IsMarked(c.record.Current()) && cfg.retained
    ensures var d := Answered(cfg, c, now);
      && SavedAs(c.row, c.record.Latest(), d.row) && d.pc.Idle?
      && d.record == if c.record.Current().finalizers == {"michelangelo/Ingester"} then c.record.(present := false)
                     else c.record
  {
    var f := c.record.Current().finalizers;
    Names(c.record.Current());
    AnsweredIs(cfg, c, now);
    assert f - {INGESTER_FINALIZER} == {} <==> f == {INGESTER_FINALIZER} by {
      assert f == (f - {INGESTER_FINALIZER}) + {INGESTER_FINALIZER};
    }
    hide Run, Lookup, Propagation, DeleteObject;
  }

  // ---- Objects that are not ----

  /** Marked by the API: if the row is live it is stamped and the Kubernetes delete is issued with the recorded policy;
      otherwise nothing is done. */
  lemma MarkedIsDeleted(cfg: Config, c: Cell, now: int)
    requires Ready(c) && c.record.Current().deletedAt.None? && IsMarked(c.record.Current())
    ensures var d := Answered(cfg, c, now);
      && Stamped(c.row, d.row) && d.pc.Idle?
      && (if c.row.Live? then DeletedFrom(c.record.Current(), c.record, now, d.record) else d.record == c.record)
  {
    Names(c.record.Current());
    AnsweredIs(cfg, c, now);
    DeleteIs(c.record, now, c.record.Current());
    hide Run, Lookup, Propagation, RemoveFinalizer, IsMarked, Delete, DeletedFrom;
  }

  /** Without a primary key only the annotation is written. */
  lemma KeylessGetsKey(cfg: Config, c: Cell, now: int)
    requires Ready(c) && c.record.Current().deletedAt.None? && !IsMarked(c.record.Current())
    requires "michelangelo/MetadataStoragePrimaryKey" !in c.record.Current().annotations
    ensures var d := Answered(cfg, c, now);
      var o := c.record.Current();
      var n := o.(annotations := o.annotations["michelangelo/MetadataStoragePrimaryKey" := "uid"]);
      d.record == c.record.(versions := c.record.versions + [n]) && d.row == c.row && d.pc.Idle?
  {
    Names(c.record.Current());
    AnsweredIs(cfg, c, now);
    hide Run, Lookup, Propagation, RemoveFinalizer, DeleteObject, IsMarked;
  }

  /** An immutable object is saved, released, and deleted with the recorded policy. */
  lemma ImmutableIsMoved(cfg: Config, c: Cell, now: int)
    requires Ready(c) && c.record.Current().deletedAt.None? && !IsMarked(c.record.Current())
    requires "michelangelo/MetadataStoragePrimaryKey" in c.record.Current().annotations
    requires MarkedImmutable(c.record.Current()) || cfg.immutableKind
    ensures var d := Answered(cfg, c, now);
      var n := Unguarded(c.record.Current());
      && SavedAs(c.row, c.record.Latest(), d.row) && d.pc.Idle?
      && DeletedFrom(n, c.record.(versions := c.record.versions + [n]), now, d.record)
  {
    Names(c.record.Current());
    AnsweredIs(cfg, c, now);
    var n := Unguarded(c.record.Current());
    DeleteIs(c.record.(versions := c.record.versions + [n]), now, c.record.Current());
    hide Run, Lookup, Propagation, IsMarked, MarkedImmutable, Delete, DeletedFrom;
  }

  /** Any other object is saved. */
  lemma OthersAreSaved(cfg: Config, c: Cell, now: int)
    requires Ready(c) && c.record.Current().deletedAt.None? && !IsMarked(c.record.Current())
    requires "michelangelo/MetadataStoragePrimaryKey" in c.record.Current().annotations
    requires !MarkedImmutable(c.record.Current()) && !cfg.immutableKind
    ensures var d := Answered(cfg, c, now);
      SavedAs(c.row, c.record.Latest(), d.row) && d.record == c.record && d.pc.Idle?
  {
    Names(c.record.Current());
    AnsweredIs(cfg, c, now);
    hide Run, Lookup, Propagation, RemoveFinalizer, DeleteObject, IsMarked, MarkedImmutable;
  }

  // ---- Calls that fail ----

  /** A call that is not answered leaves object and row alone, and ends the reconcile; only for an object that is
      marked and deleted already is there no call to make before the finalizer's removal. */
  lemma SilenceChangesNothing(cfg: Config, c: Cell, base: nat, thenDelete: bool, found: bool, policy: Option<string>,
                              now: int)
    requires base < |c.record.versions|
    ensures var o := c.record.versions[base];
      Reconcile(cfg, c, base, false)
      == c.(pc := if o.deletedAt.Some? && Guarded(o) && IsMarked(o) then Removing(base, false) else Idle)
    ensures RemoveFinalizer(c, base, thenDelete, false) == DeleteObject(c, base, false, now) == c.(pc := Idle)
    ensures HandleApiDelete(c, found, base, policy, false) == c
  {
    Names(c.record.versions[base]);
    hide Lookup, Propagation, Delete;
  }

  /** A write to the object from a version that is not the newest fails: the removal of the finalizer, the primary key,
      and the mark of a mutable object. */
  lemma StaleWritesFail(cfg: Config, c: Cell, base: nat, thenDelete: bool, policy: Option<string>, ok: bool)
    requires base < |c.record.versions| && (!c.record.present || base < c.record.Latest())
    ensures RemoveFinalizer(c, base, thenDelete, ok) == c.(pc := Idle)
    ensures Reconcile(cfg, c, base, ok).record == c.record
    ensures !MarkedImmutable(c.record.versions[base]) ==> HandleApiDelete(c, true, base, policy, ok) == c
  {
    Names(c.record.versions[base]);
    hide Lookup, Propagation, Delete;
  }

  // ---- Delete requests through the API ----

  /** An answered request for a mutable object stores the mark and the caller's policy, and nothing else; the row is
      left to the ingester. */
  lemma RequestIsRecorded(c: Cell, policy: Option<string>)
    requires c.record.Valid() && c.record.present && !MarkedImmutable(c.record.Current())
    ensures var d := HandleApiDelete(c, true, c.record.Latest(), policy, true);
      var o := c.record.Current();
      var a := o.annotations["michelangelo/Deleting" := "true"];
      var n := o.(annotations := if policy.None? then a else a["michelangelo/DeletePropagation" := policy.value]);
      d == c.(record := d.record) && Stored(n, c.record, d.record)
  {
    Names(c.record.Current());
    hide Lookup, MarkedImmutable;
  }

  /** A request for an immutable object on its way out, or for one that Kubernetes no longer has, stamps a live row; one
      for an immutable object that is not yet on its way out is refused. The stored object is left alone. */
  lemma ImmutableRequest(c: Cell, found: bool, version: nat, policy: Option<string>)
    requires version < |c.record.versions| && (found ==> MarkedImmutable(c.record.versions[version]))
    ensures var d := HandleApiDelete(c, found, version, policy, true);
      var o := c.record.versions[version];
      && d.record == c.record && d.pc == c.pc && d.seen == c.seen
      && (if !found || o.deletedAt.Some? then Stamped(c.row, d.row) && (d.userDeleted <==> c.userDeleted || c.row.Live?)
          else d == c)
  {
    Names(c.record.versions[version]);
  }

  /** From the request to the stored object: an answered request with a policy for a mutable object with a live row,
      followed by an answered reconcile, deletes the object with exactly that policy. */
  lemma PolicyReachesTheObject(cfg: Config, c: Cell, policy: string, now: int)
    requires Ready(c) && c.row.Live? && c.record.Current().deletedAt.None? && !MarkedImmutable(c.record.Current())
    ensures var d := HandleApiDelete(c, true, c.record.Latest(), Some(policy), true);
      Ready(d) &&
      var e := Answered(cfg, d, now);
      var f := c.record.Current().finalizers + (if policy == "Foreground" then {"foregroundDeletion"} else {})
               + (if policy == "Orphan" then {"orphan"} else {});
      && e.row == Tombstone(c.row.version)
      && (f != {} ==> e.record.present && e.record.Valid() && e.record.Current().deletedAt == Some(now)
                      && e.record.Current().finalizers == f)
      && (f == {} ==> !e.record.present)
  {
    RequestIsRecorded(c, Some(policy));
    var d := HandleApiDelete(c, true, c.record.Latest(), Some(policy), true);
    MarkedNow(c.record.Current(), policy);
    MarkedIsDeleted(cfg, d, now);
    hide Answered, HandleApiDelete, MarkedImmutable;
  }

  lemma MarkedNow(o: Object, policy: string)
    ensures var a := o.annotations["michelangelo/Deleting" := "true"]["michelangelo/DeletePropagation" := policy];
      var n := o.(annotations := a);
      IsMarked(n) && (forall p :: Asks(n, p) <==> p == policy)
  {
    assert "michelangelo/Deleting" != "michelangelo/DeletePropagation" by {
      assert |"michelangelo/Deleting"| != |"michelangelo/DeletePropagation"|;
    }
  }
}
