/** Schemas evolve safely: as long as instances exist and nobody overrides the check, no version is ever
    dropped and every version's schema keeps covering all its earlier schemas. */
module CrdEvolution {
  import opened Wrappers
  import opened SchemaDiff
  import opened CrdGateway

  function SchemaOf(c: CRD, k: string): Schema
    requires k in Named(c.versions)
  {
    OrEmpty(Named(c.versions)[k].schema)
  }

  /** No version is dropped, and each schema covers the earlier one: every path keeps its type. */
  ghost predicate Preserves(o: CRD, n: CRD) {
    forall k :: k in Named(o.versions) ==> k in Named(n.versions) && Covers(SchemaOf(o, k), SchemaOf(n, k))
  }

  lemma PreservesItself(c: CRD)
    ensures Preserves(c, c)
  {
    forall k | k in Named(c.versions) ensures Covers(SchemaOf(c, k), SchemaOf(c, k)) { Reflexive(SchemaOf(c, k)); }
  }

  lemma PreservesOn(a: CRD, b: CRD, c: CRD)
    requires Preserves(a, b) && Preserves(b, c)
    ensures Preserves(a, c)
  {
    hide Covers, Named;
    forall k | k in Named(a.versions) ensures k in Named(c.versions) && Covers(SchemaOf(a, k), SchemaOf(c, k)) {
      Transitive(SchemaOf(a, k), SchemaOf(b, k), SchemaOf(c, k));
    }
  }

  /** The gateway's verdict is exactly preservation, for a CRD that has versions. */
  lemma CompatibleIffPreserves(o: CRD, n: CRD)
    ensures SpecCompatible(o, n) <==> n.versions != [] && Preserves(o, n)
  {
    hide Diff, Covers, CompatibleOrNil, Named;
    forall k | k in Named(o.versions) && k in Named(n.versions)
      ensures VersionFits(o, n, k) <==> Covers(SchemaOf(o, k), SchemaOf(n, k))
    {
      Meaning(Named(o.versions)[k].schema, Named(n.versions)[k].schema);
    }
  }

  ghost predicate Ordered(h: seq<CRD>) {
    forall i, j :: 0 <= i <= j < |h| ==> Preserves(h[i], h[j])
  }

  predicate PcOk(store: Store, pc: Pc) {
    pc.Updating? ==> pc.base < |store.history|
  }

  ghost predicate Inv(f: Fleet) {
    && Ordered(f.store.history) && (f.store.present <==> f.store.history != [])
    && forall r :: r in f.replicas ==> PcOk(f.store, f.replicas[r])
  }

  /** Instances exist, nobody is on the allow list. */
  predicate Guarded(a: Action) {
    (a.Write? ==> a.has && !a.allow) && (a.Remove? ==> a.has)
  }

  lemma OrderedAppend(h: seq<CRD>, c: CRD)
    requires Ordered(h) && (h != [] ==> Preserves(h[|h| - 1], c))
    ensures Ordered(h + [c])
  {
    hide Preserves;
    var g := h + [c];
    PreservesItself(c);
    forall i, j | 0 <= i <= j < |g| ensures Preserves(g[i], g[j]) {
      if i < |h| && j == |h| {
        PreservesOn(h[i], h[|h| - 1], c);
      }
    }
  }

  lemma WriteKeeps(f: Fleet, r: nat, ok: bool)
    requires Inv(f)
    ensures Inv(Step(f, Write(r, true, false, ok)))
  {
    hide Ordered, SpecCompatible;
    var pc := PcOf(f, r);
    if pc.Creating? && !f.store.present {
      OrderedAppend(f.store.history, pc.crd);
    } else if pc.Updating? && pc.base == |f.store.history| - 1 && SpecCompatible(f.store.history[pc.base], pc.crd) {
      CompatibleIffPreserves(f.store.history[pc.base], pc.crd);
      OrderedAppend(f.store.history, pc.crd);
    }
  }

  lemma StepKeeps(f: Fleet, a: Action)
    requires Inv(f) && Guarded(a)
    ensures Inv(Step(f, a))
  {
    hide Ordered, HasAllVersions, HasChange, AfterWrite;
    if a.Write? { WriteKeeps(f, a.replica, a.ok); }
  }

  lemma {:induction false} RunKeeps(f: Fleet, actions: seq<Action>)
    requires Inv(f) && forall a :: a in actions ==> Guarded(a)
    ensures Inv(Run(f, actions))
    decreases |actions|
  {
    hide Inv, Step;
    if actions != [] {
      assert actions[0] in actions;
      StepKeeps(f, actions[0]);
      RunKeeps(Step(f, actions[0]), actions[1..]);
    }
  }

  lemma {:induction false} HistoryGrows(f: Fleet, actions: seq<Action>)
    ensures f.store.history <= Run(f, actions).store.history
    decreases |actions|
  {
    hide HasAllVersions, HasChange, SpecCompatible;
    if actions != [] {
      HistoryGrows(Step(f, actions[0]), actions[1..]);
    }
  }

  /** Safe evolution. However the replicas' upserts interleave, fail or lose the optimistic lock: of any two
      CRDs stored one after the other, whatever lies between them, the later one has every version of the
      earlier one, with a schema in which every path of the earlier schema resolves to the same type. */
  lemma SafeEvolution(first: seq<CRD>, actions: seq<Action>, i: nat, j: nat)
    requires |first| <= 1 && forall a :: a in actions ==> Guarded(a)
    ensures var h := Run(Fleet(Store(first, first != []), map[]), actions).store.history;
      && first <= h
      && (i <= j < |h| ==> Preserves(h[i], h[j]))
  {
    hide Preserves, Step;
    var f := Fleet(Store(first, first != []), map[]);
    if first != [] { PreservesItself(first[0]); }
    RunKeeps(f, actions);
    HistoryGrows(f, actions);
  }

  /** The check is needed: with the override, or with no instance, an incompatible CRD is stored. */
  lemma OverrideBreaksIt(o: CRD, n: CRD)
    requires HasAllVersions(o, n) && (o.versions != n.versions || o.conversion != n.conversion)
    ensures var f := Fleet(Store([o], true), map[]);
      && (Run(f, [Get(0, n), Write(0, true, true, true)]).store.history == [o, n])
      && (Run(f, [Get(0, n), Write(0, false, false, true)]).store.history == [o, n])
      && (Run(f, [Get(0, n), Write(0, true, false, true)]).store.history == [o, n] <==> SpecCompatible(o, n))
  {
    hide HasAllVersions, SpecCompatible;
    var f := Fleet(Store([o], true), map[]);
    RunTwo(f, [Get(0, n), Write(0, true, true, true)]);
    RunTwo(f, [Get(0, n), Write(0, false, false, true)]);
    RunTwo(f, [Get(0, n), Write(0, true, false, true)]);
  }

  /** Of two replicas that read the same CRD only the first to write stores its own. */
  lemma OneReplicaWins(o: CRD, a: CRD, b: CRD, allow: bool, has: bool)
    requires HasAllVersions(o, a) && (o.versions != a.versions || o.conversion != a.conversion)
    requires allow || !has || SpecCompatible(o, a)
    ensures var f := Fleet(Store([o], true), map[]);
      Run(f, [Get(0, a), Get(1, b), Write(0, has, allow, true), Write(1, has, allow, true)]).store
      == Store([o, a], true)
  {
    hide HasAllVersions, SpecCompatible;
    var f := Fleet(Store([o], true), map[]);
    RunFour(f, [Get(0, a), Get(1, b), Write(0, has, allow, true), Write(1, has, allow, true)]);
  }

  /** A CRD is deleted exactly if it has no instances; what was stored before counts no more: any CRD can then be
      created, without a check. */
  lemma DeletionIffUnused(o: CRD, n: CRD, has: bool)
    ensures var f := Fleet(Store([o], true), map[]);
      && Step(f, Remove(has)).store == Store([o], has)
      && Run(f, [Remove(false), Get(0, n), Write(0, has, false, true), Remove(true)]).store == Store([o, n], true)
  {
    RunFour(Fleet(Store([o], true), map[]), [Remove(false), Get(0, n), Write(0, has, false, true), Remove(true)]);
  }

  lemma RunFour(f: Fleet, a: seq<Action>)
    requires |a| == 4
    ensures Run(f, a) == Step(Step(Step(Step(f, a[0]), a[1]), a[2]), a[3])
  {
    hide Step;
    var g := Step(f, a[0]);
    RunTwo(Step(g, a[1]), a[2..]);
    assert a[1..][1..] == a[2..];
    assert Run(g, a[1..]) == Run(Step(g, a[1..][0]), a[1..][1..]);
  }

  lemma RunTwo(f: Fleet, a: seq<Action>)
    requires |a| == 2
    ensures Run(f, a) == Step(Step(f, a[0]), a[1])
  {
    hide Step;
    assert a[1..] == [a[1]] && [a[1]][1..] == [];
    assert Run(Step(f, a[0]), [a[1]]) == Step(Step(f, a[0]), a[1]);
  }
}
