/** Comparing two CRDs, and the conditional update that several API-server replicas run against one
    stored CRD. */
module CrdGateway {
  import opened Wrappers
  import opened SchemaDiff
  import opened SchemaCompare

  /** `schema` is Schema.OpenAPIV3Schema; `other` stands for what compatibility does not look at. */
  datatype Version = Version(name: string, schema: Option<Schema>, other: int)

  datatype CRD = CRD(versions: seq<Version>, conversion: int, other: int)

  /** The versions by name; of two with the same name the later one counts. */
  function Named(versions: seq<Version>): map<string, Version> {
    if versions == [] then map[]
    else
      var last := versions[|versions| - 1];
      Named(versions[..|versions| - 1])[last.name := last]
  }

  /** The names are those of the versions. */
  lemma {:induction false} NamedHas(versions: seq<Version>, k: string)
    ensures (k in Named(versions)) <==> exists i :: 0 <= i < |versions| && versions[i].name == k
    ensures k in Named(versions) ==> Named(versions)[k] in versions && Named(versions)[k].name == k
  {
    if versions != [] {
      var front := versions[..|versions| - 1];
      NamedHas(front, k);
      if k == versions[|versions| - 1].name {
      } else if k in Named(front) {
        var i :| 0 <= i < |front| && front[i].name == k;
        assert versions[i].name == k;
      } else {
        assert forall i :: 0 <= i < |front| ==> versions[i] == front[i];
      }
    }
  }

  lemma NamedEmpty(versions: seq<Version>)
    ensures |Named(versions)| == 0 <==> versions == []
  {
    if versions != [] {
      assert versions[|versions| - 1].name in Named(versions);
    }
  }

  // ---- isSpecChangeCompatible ----

  datatype Verdict = MissingVersion(name: string) | Verdict(compatible: bool)

  /** The schemas of a version that both CRDs have fit. */
  predicate VersionFits(o: CRD, n: CRD, k: string)
    requires k in Named(o.versions) && k in Named(n.versions)
  {
    CompatibleOrNil(Diff(Named(o.versions)[k].schema, Named(n.versions)[k].schema))
  }

  predicate HasAllVersions(o: CRD, n: CRD) {
    forall k :: k in Named(o.versions) ==> k in Named(n.versions)
  }

  predicate SpecCompatible(o: CRD, n: CRD) {
    && n.versions != [] && HasAllVersions(o, n)
    && forall k :: k in Named(o.versions) && k in Named(n.versions) ==> VersionFits(o, n, k)
  }

  /** The answers the function may give. The versions are visited in no fixed order, so when one version
      is missing and another does not fit, it may report either. */
  predicate MayAnswer(o: CRD, n: CRD, v: Verdict) {
    match v
    case MissingVersion(k) => n.versions != [] && k in Named(o.versions) && k !in Named(n.versions)
    case Verdict(true) => SpecCompatible(o, n)
    case Verdict(false) =>
      n.versions == [] || exists k :: k in Named(o.versions) && k in Named(n.versions) && !VersionFits(o, n, k)
  }

  // ---- Which answers there are ----

  /** The loop over the old versions, visited in the given order. */
  function VisitFrom(o: CRD, n: CRD, order: seq<string>): Verdict
    requires forall k :: k in order ==> k in Named(o.versions)
  {
    if order == [] then Verdict(true)
    else if order[0] !in Named(n.versions) then MissingVersion(order[0])
    else if !VersionFits(o, n, order[0]) then Verdict(false)
    else VisitFrom(o, n, order[1..])
  }

  /** `isSpecChangeCompatible` when the old versions come in this order. */
  function Visit(o: CRD, n: CRD, order: seq<string>): Verdict
    requires forall k :: k in order ==> k in Named(o.versions)
  {
    if n.versions == [] then Verdict(false) else VisitFrom(o, n, order)
  }

  /** Every old version once. */
  ghost predicate IsOrder(o: CRD, order: seq<string>) {
    && (forall k :: k in Named(o.versions) <==> k in order)
    && (forall i, j :: 0 <= i < j < |order| ==> order[i] != order[j])
  }

  lemma {:induction false} VisitSound(o: CRD, n: CRD, order: seq<string>)
    requires forall k :: k in order ==> k in Named(o.versions)
    ensures match VisitFrom(o, n, order)
      case MissingVersion(k) => k in order && k !in Named(n.versions)
      case Verdict(true) => forall k :: k in order ==> k in Named(n.versions) && VersionFits(o, n, k)
      case Verdict(false) => exists k :: k in order && k in Named(n.versions) && !VersionFits(o, n, k)
    decreases |order|
  {
    hide Named, VersionFits;
    if order != [] && order[0] in Named(n.versions) && VersionFits(o, n, order[0]) {
      VisitSound(o, n, order[1..]);
    }
  }

  lemma {:induction false} Enumerate(s: set<string>) returns (q: seq<string>)
    ensures (forall k :: k in s <==> k in q) && (forall i, j :: 0 <= i < j < |q| ==> q[i] != q[j])
    decreases |s|
  {
    q := [];
    if s != {} {
      var k :| k in s;
      var rest := Enumerate(s - {k});
      q := [k] + rest;
    }
  }

  /** An order that starts with k. */
  lemma OrderFrom(o: CRD, k: string) returns (order: seq<string>)
    requires k in Named(o.versions)
    ensures IsOrder(o, order) && order != [] && order[0] == k
  {
    hide Named;
    var rest := Enumerate(Named(o.versions).Keys - {k});
    order := [k] + rest;
  }

  /** The permitted answers are exactly those of some visiting order. */
  lemma AnswersAreOrders(o: CRD, n: CRD, v: Verdict)
    ensures MayAnswer(o, n, v) <==> exists order :: IsOrder(o, order) && Visit(o, n, order) == v
  {
    hide Named, VersionFits;
    if MayAnswer(o, n, v) {
      var order := Enumerate(Named(o.versions).Keys);
      if v.MissingVersion? {
        order := OrderFrom(o, v.name);
      } else if !v.compatible && n.versions != [] {
        var k :| k in Named(o.versions) && k in Named(n.versions) && !VersionFits(o, n, k);
        order := OrderFrom(o, k);
      }
      VisitSound(o, n, order);
      assert IsOrder(o, order) && Visit(o, n, order) == v;
    }
    forall order | IsOrder(o, order) && Visit(o, n, order) == v
      ensures MayAnswer(o, n, v)
    {
      VisitSound(o, n, order);
    }
  }

  /** A version that the new CRD lacks, and one that it has with a schema that does not fit. */
  predicate DisagreesBothWays(o: CRD, n: CRD) {
    && n.versions != []
    && (exists k :: k in Named(o.versions) && k !in Named(n.versions))
    && (exists k :: k in Named(o.versions) && k in Named(n.versions) && !VersionFits(o, n, k))
  }

  /** Exactly when the same comparison may end in an error or in a verdict. */
  lemma AmbiguousIff(o: CRD, n: CRD)
    ensures (exists v, w :: MayAnswer(o, n, v) && MayAnswer(o, n, w) && v.MissingVersion? && w.Verdict?)
        <==> DisagreesBothWays(o, n)
  {
    hide Named, VersionFits;
    if DisagreesBothWays(o, n) {
      var k :| k in Named(o.versions) && k !in Named(n.versions);
      assert MayAnswer(o, n, MissingVersion(k)) && MayAnswer(o, n, Verdict(false));
    }
  }

  predicate Missing(o: CRD, n: CRD, k: string) {
    k in Named(o.versions) && k !in Named(n.versions)
  }

  /** Exactly when the answer does not hang on the order: no version is missing, or a single one is and all
      others fit. */
  lemma OneAnswerIff(o: CRD, n: CRD)
    ensures (forall v, w :: MayAnswer(o, n, v) && MayAnswer(o, n, w) ==> v == w)
        <==> (n.versions == []
              || HasAllVersions(o, n)
              || (!DisagreesBothWays(o, n) && forall j, k :: Missing(o, n, j) && Missing(o, n, k) ==> j == k))
  {
    hide Named, VersionFits;
    if n.versions != [] && DisagreesBothWays(o, n) {
      var k :| k in Named(o.versions) && k !in Named(n.versions);
      assert MayAnswer(o, n, MissingVersion(k)) && MayAnswer(o, n, Verdict(false));
    } else if n.versions != [] && exists j, k :: Missing(o, n, j) && Missing(o, n, k) && j != k {
      var j, k :| Missing(o, n, j) && Missing(o, n, k) && j != k;
      assert MayAnswer(o, n, MissingVersion(j)) && MayAnswer(o, n, MissingVersion(k));
    } else {
      forall v, w | MayAnswer(o, n, v) && MayAnswer(o, n, w) ensures v == w {
        if v.MissingVersion? && w.MissingVersion? { assert Missing(o, n, v.name) && Missing(o, n, w.name); }
      }
      assert n.versions != [] && !HasAllVersions(o, n) ==> exists k :: Missing(o, n, k) by {
        if !HasAllVersions(o, n) {
          var k :| k in Named(o.versions) && k !in Named(n.versions);
          assert Missing(o, n, k);
        }
      }
    }
  }

  /** "v1" changes its type, "v2" is gone. */
  const OLD_EXAMPLE := CRD([Version("v1", Some(EMPTY.(typ := "object")), 0), Version("v2", None, 0)], 0, 0)
  const NEW_EXAMPLE := CRD([Version("v1", Some(EMPTY.(typ := "string")), 0)], 0, 0)

  lemma TwoAnswers()
    ensures MayAnswer(OLD_EXAMPLE, NEW_EXAMPLE, MissingVersion("v2"))
    ensures MayAnswer(OLD_EXAMPLE, NEW_EXAMPLE, Verdict(false))
    ensures DisagreesBothWays(OLD_EXAMPLE, NEW_EXAMPLE)
  {
    var o, n := OLD_EXAMPLE, NEW_EXAMPLE;
    assert o.versions[..1] == [o.versions[0]] && o.versions[..1][..0] == [];
    assert n.versions[..0] == [];
    assert Named(o.versions[..1]) == map["v1" := o.versions[0]];
    assert Named(n.versions) == map["v1" := n.versions[0]];
    var d := Diff(o.versions[0].schema, n.versions[0].schema);
    assert d.Some? && d.value.typeDiff.Some?;
    assert !VersionFits(o, n, "v1");
  }

  method IndexVersions(versions: seq<Version>) returns (m: map<string, Version>)
    ensures m == Named(versions)
  {
    m := map[];
    for i := 0 to |versions|
      invariant m == Named(versions[..i])
    {
      assert versions[..i + 1][..i] == versions[..i];
      m := m[versions[i].name := versions[i]];
    }
    assert versions[..|versions|] == versions;
  }

  method IsSpecChangeCompatible(o: CRD, n: CRD) returns (v: Verdict)
    ensures MayAnswer(o, n, v)
  {
    hide Diff, Compatible, CompatibleOrNil, Named;
    var oldVersions := IndexVersions(o.versions);
    var newVersions := IndexVersions(n.versions);
    NamedEmpty(n.versions);
    if |newVersions| == 0 {
      return Verdict(false);
    }
    var names := oldVersions.Keys;
    while names != {}
      invariant names <= oldVersions.Keys
      invariant forall k :: k in oldVersions && k !in names ==> k in newVersions && VersionFits(o, n, k)
      decreases |names|
    {
      var k :| k in names;
      names := names - {k};
      if k !in newVersions {
        return MissingVersion(k);
      }
      var fits := SchemasFit(oldVersions[k], newVersions[k]);
      if !fits {
        return Verdict(false);
      }
    }
    v := Verdict(true);
  }

  method SchemasFit(o: Version, n: Version) returns (fits: bool)
    ensures fits <==> CompatibleOrNil(Diff(o.schema, n.schema))
  {
    hide Diff, Compatible;
    var diff := NewSchemaDiff(o.schema, n.schema);
    fits := !(diff.Some? && !Compatible(diff.value));
  }

  /** With all versions present there is one answer. */
  lemma VerdictIsDetermined(o: CRD, n: CRD, v: Verdict)
    requires MayAnswer(o, n, v) && HasAllVersions(o, n)
    ensures v == Verdict(SpecCompatible(o, n))
  {
    hide Diff, CompatibleOrNil;
  }

  datatype CompareResult = CompareResult(hasChange: bool, compatible: bool)

  predicate HasChange(o: CRD, n: CRD) {
    o.versions != n.versions || o.conversion != n.conversion
  }

  /** None is the error for a missing version. A change is reported exactly if versions or conversion differ; the
      verdict is one of those permitted, and with all versions present the only one. */
  method CompareCRDSchemas(o: CRD, n: CRD) returns (r: Option<CompareResult>)
    ensures r.Some? ==> (r.value.hasChange <==> o.versions != n.versions || o.conversion != n.conversion)
    ensures o.versions == n.versions && o.conversion == n.conversion ==> r == Some(CompareResult(false, true))
    ensures o.versions != n.versions || o.conversion != n.conversion ==>
      exists v :: MayAnswer(o, n, v)
        && r == if v.MissingVersion? then None else Some(CompareResult(true, v.compatible))
    ensures HasAllVersions(o, n) ==> r.Some?
    ensures HasAllVersions(o, n) && r.Some? && r.value.hasChange ==> r.value.compatible == SpecCompatible(o, n)
  {
    hide SpecCompatible, VersionFits;
    if !HasChange(o, n) { return Some(CompareResult(false, true)); }
    var v := IsSpecChangeCompatible(o, n);
    if HasAllVersions(o, n) { VerdictIsDetermined(o, n, v); }
    if v.MissingVersion? { return None; }
    r := Some(CompareResult(true, v.compatible));
  }

  // ---- The stored CRD and its replicas ----

  /** Every CRD ever stored, oldest first; a resourceVersion is a position. */
  datatype Store = Store(history: seq<CRD>, present: bool)

  /** A replica between its Get and its write. */
  datatype Pc = Idle | Creating(crd: CRD) | Updating(base: nat, crd: CRD)

  datatype Fleet = Fleet(store: Store, replicas: map<nat, Pc>)

  /** `has` is what hasInstances answers, `allow` is enableIncompatibleUpdate, `ok` says that the write
      gets through. Delete is the gateway's own Delete. */
  datatype Action =
    | Get(replica: nat, crd: CRD)
    | Write(replica: nat, has: bool, allow: bool, ok: bool)
    | Remove(has: bool)

  /** `ConditionalUpsert` after its Get: create, or give up, or go on to the write. */
  function AfterGet(store: Store, crd: CRD): Pc {
    if !store.present || store.history == [] then Creating(crd) else
    var base := |store.history| - 1;
    if !HasAllVersions(store.history[base], crd) || !HasChange(store.history[base], crd) then Idle
    else Updating(base, crd)
  }

  /** Its write: a create fails if somebody else created, an update if somebody else updated. */
  function AfterWrite(store: Store, pc: Pc, has: bool, allow: bool, ok: bool): Store {
    match pc
    case Idle => store
    case Creating(crd) =>
      if ok && !store.present then Store(store.history + [crd], true) else store
    case Updating(base, crd) =>
      if base >= |store.history| then store
      else if !SpecCompatible(store.history[base], crd) && !allow && has then store
      else if ok && store.present && base == |store.history| - 1 then Store(store.history + [crd], true)
      else store
  }

  function PcOf(f: Fleet, r: nat): Pc {
    if r in f.replicas then f.replicas[r] else Idle
  }

  function Step(f: Fleet, a: Action): Fleet {
    match a
    case Get(r, crd) => if PcOf(f, r).Idle? then f.(replicas := f.replicas[r := AfterGet(f.store, crd)]) else f
    case Write(r, has, allow, ok) =>
      Fleet(AfterWrite(f.store, PcOf(f, r), has, allow, ok), f.replicas[r := Idle])
    case Remove(has) => if has then f else f.(store := f.store.(present := false))
  }

  function Run(f: Fleet, actions: seq<Action>): Fleet
    decreases |actions|
  {
    if actions == [] then f else Run(Step(f, actions[0]), actions[1..])
  }

  // ---- The method ----

  lemma MissingMeansNotAll(o: CRD, n: CRD, i: nat)
    requires i < |o.versions| && o.versions[i].name !in Named(n.versions)
    ensures !HasAllVersions(o, n)
  {
    NamedHas(o.versions, o.versions[i].name);
  }

  lemma AllFound(o: CRD, n: CRD)
    requires forall j :: 0 <= j < |o.versions| ==> o.versions[j].name in Named(n.versions)
    ensures HasAllVersions(o, n)
  {
    forall k | k in Named(o.versions) ensures k in Named(n.versions) { NamedHas(o.versions, k); }
  }

  /** Every version name is still there. */
  predicate KeepsNames(o: CRD, n: CRD) {
    forall i :: 0 <= i < |o.versions| ==> HasName(n.versions, o.versions[i].name)
  }

  predicate HasName(versions: seq<Version>, k: string) {
    exists j :: 0 <= j < |versions| && versions[j].name == k
  }

  lemma NamesKept(o: CRD, n: CRD)
    ensures KeepsNames(o, n) <==> HasAllVersions(o, n)
  {
    hide Named, HasName;
    forall k ensures k in Named(o.versions) <==> HasName(o.versions, k) {
      HasNameIff(o.versions, k);
    }
    forall k ensures k in Named(n.versions) <==> HasName(n.versions, k) {
      HasNameIff(n.versions, k);
    }
    forall i | 0 <= i < |o.versions| ensures HasName(o.versions, o.versions[i].name) {
      HasNameIff(o.versions, o.versions[i].name);
    }
    NamesAre(o.versions);
  }

  lemma HasNameIff(versions: seq<Version>, k: string)
    ensures k in Named(versions) <==> HasName(versions, k)
    ensures forall i :: 0 <= i < |versions| && versions[i].name == k ==> HasName(versions, k)
  {
    NamedHas(versions, k);
  }

  lemma NamesAre(versions: seq<Version>)
    ensures forall k :: HasName(versions, k) ==> exists i :: 0 <= i < |versions| && versions[i].name == k
  {
  }

  class CrdServer {
    var store: Store

    constructor (s: Store)
      ensures store == s
    {
      store := s;
    }

    method FindVersion(name: string, versions: seq<Version>) returns (found: bool)
      ensures found <==> name in Named(versions)
    {
      NamedHas(versions, name);
      found := false;
      for i := 0 to |versions|
        invariant !found && forall j :: 0 <= j < i ==> versions[j].name != name
      {
        if versions[i].name == name { return true; }
      }
    }

    /** One undisturbed upsert is a Get and a Write of the fleet. Without an error the newest stored CRD has the wanted
        versions and conversion. An absent CRD is created as it is. A differing one is stored as it is if no version
        name is lost and it is compatible, or overridden, or without instances; otherwise nothing is stored. There is
        an error exactly if a version name is lost, an incompatible change is refused, or the server does not answer
        the write. */
    method ConditionalUpsert(crd: CRD, allow: bool, has: bool, ok: bool) returns (err: bool)
      modifies this
      ensures store == AfterWrite(old(store), AfterGet(old(store), crd), has, allow, ok)
      ensures !err ==>
        && store.present && store.history != []
        && store.history[|store.history| - 1].versions == crd.versions
        && store.history[|store.history| - 1].conversion == crd.conversion
      ensures !old(store).present ==>
        (err <==> !ok) && store == if ok then Store(old(store).history + [crd], true) else old(store)
      ensures old(store).present && old(store).history == [] ==> err && store == old(store)
      ensures old(store).present && old(store).history != [] ==>
        var o := old(store).history[|old(store).history| - 1];
        var differs := o.versions != crd.versions || o.conversion != crd.conversion;
        var admitted := KeepsNames(o, crd) && (SpecCompatible(o, crd) || allow || !has);
        && (store == if differs && admitted && ok then Store(old(store).history + [crd], true) else old(store))
        && (err <==> !KeepsNames(o, crd) || (differs && !(admitted && ok)))
    {
      hide SpecCompatible, Named, HasAllVersions, KeepsNames;
      if !store.present || store.history == [] {
        err := !ok || store.present;
        if !err {
          store := Store(store.history + [crd], true);
        }
        return;
      }
      var base := |store.history| - 1;
      var onServer := store.history[base];
      NamesKept(onServer, crd);
      for i := 0 to |onServer.versions|
        invariant store == old(store)
        invariant forall j :: 0 <= j < i ==> onServer.versions[j].name in Named(crd.versions)
      {
        var find := FindVersion(onServer.versions[i].name, crd.versions);
        if !find { MissingMeansNotAll(onServer, crd, i); return true; }
      }
      AllFound(onServer, crd);
      var result := CompareCRDSchemas(onServer, crd);
      if result.None? { return true; }
      if !result.value.hasChange { return false; }
      if !result.value.compatible && !allow {
        if has { return true; }
      }
      err := !ok;
      if ok {
        store := Store(store.history + [crd], true);
      }
    }
  }
}
