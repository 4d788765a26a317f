/** A custom resource as the API server keeps it, and what the server does with updates, status updates
    and deletes. Every stored version is kept, so a stale read is any earlier version and a
    resourceVersion is a position in that history. */
module KubeObjects {
  import opened Wrappers

  const INGESTER_FINALIZER := "michelangelo/Ingester"
  const DELETING_ANNOTATION := "michelangelo/Deleting"
  const IMMUTABLE_ANNOTATION := "michelangelo/Immutable"
  const PRIMARY_KEY_ANNOTATION := "michelangelo/MetadataStoragePrimaryKey"
  const DRAIN_COUNTED_ANNOTATION := "cascade.michelangelo.uber.com/drain-counted"

  type Annotations = map<string, string>

  /** The status subresource: whether the run is in a terminal state, whether its workflow started, and
      everything else. */
  datatype Status = Status(terminal: bool, started: bool, detail: int)

  /** `kill` is Spec.Kill; `body` stands for the rest of the spec and metadata. Finalizers form a set:
      no code here depends on their order. */
  datatype Object = Object(finalizers: set<string>, annotations: Annotations, deletedAt: Option<int>,
                           kill: bool, body: int, status: Status)

  function Lookup(annotations: Annotations, key: string): string {
    if key in annotations then annotations[key] else ""
  }

  predicate IsDrainCounted(o: Object) { Lookup(o.annotations, DRAIN_COUNTED_ANNOTATION) == "true" }
  predicate IsDeletingAnnotationSet(o: Object) { Lookup(o.annotations, DELETING_ANNOTATION) == "true" }
  predicate IsImmutable(o: Object) { Lookup(o.annotations, IMMUTABLE_ANNOTATION) == "true" }

  /** All versions of one object (one UID), oldest first, and whether it still exists. */
  datatype Record = Record(versions: seq<Object>, present: bool) {
    predicate Valid() { |versions| > 0 }

    function Current(): Object
      requires Valid()
    {
      versions[|versions| - 1]
    }

    function Latest(): nat
      requires Valid()
    {
      |versions| - 1
    }
  }

  /** Once an object is being deleted it stays so and can only lose finalizers. */
  predicate ServerAllows(o: Object, n: Object) {
    o.deletedAt.Some? ==> n.deletedAt == o.deletedAt && n.finalizers <= o.finalizers
  }

  /** Storing a new version; a deleted object vanishes with its last finalizer. */
  function Store(r: Record, n: Object): Record
    requires r.Valid()
  {
    if n.deletedAt.Some? && n.finalizers == {} then r.(present := false) else r.(versions := r.versions + [n])
  }

  /** The optimistic lock: the object exists and the caller read its newest version. */
  predicate UpToDate(r: Record, base: nat) {
    r.Valid() && r.present && base == r.Latest()
  }

  /** `Update` through the main resource of a copy of version `base` changed into o. The server keeps its
      own status and deletionTimestamp. */
  function Update(r: Record, base: nat, o: Object): Option<Record> {
    if !UpToDate(r, base) then None else
    var n := o.(status := r.Current().status, deletedAt := r.Current().deletedAt);
    if ServerAllows(r.Current(), n) then Some(Store(r, n)) else None
  }

  /** `UpdateStatus`: only the status is written. */
  function UpdateStatus(r: Record, base: nat, status: Status): Option<Record> {
    if !UpToDate(r, base) then None else Some(Store(r, r.Current().(status := status)))
  }

  /** `Delete` by name, with the finalizers that the propagation policy adds. None is NotFound. */
  function Delete(r: Record, now: int, propagation: set<string>): Option<Record> {
    if !r.Valid() || !r.present then None else
    var o := r.Current();
    if o.deletedAt.Some? then Some(r)
    else if o.finalizers + propagation == {} then Some(r.(present := false))
    else Some(r.(versions := r.versions + [o.(deletedAt := Some(now), finalizers := o.finalizers + propagation)]))
  }

  /** What one request can do to a stored object, whoever makes it: add a version that the server's rules
      allow, or make the object vanish. */
  predicate ServerStep(r: Record, r': Record) {
    && r.Valid() && r.present
    && (r' == r.(present := false)
        || (r'.present && |r'.versions| == |r.versions| + 1 && r'.versions[..|r.versions|] == r.versions
            && ServerAllows(r.Current(), r'.versions[|r.versions|])))
  }

  /** Earlier versions stay as they are. */
  predicate Extends(r: Record, r': Record) {
    |r.versions| <= |r'.versions| && r'.versions[..|r.versions|] == r.versions
  }

  /** A finalizer that stands on the object is still there afterwards, so the object is too. */
  predicate KeepsFinalizer(r: Record, r': Record, f: string)
    requires r.Valid()
  {
    r.present && f in r.Current().finalizers ==> r'.Valid() && r'.present && f in r'.Current().finalizers
  }

  lemma UpdateEffect(r: Record, base: nat, o: Object)
    requires r.Valid()
    ensures Update(r, base, o).Some? ==> base < |r.versions| && r.versions[base] == r.Current()
    ensures Update(r, base, o).Some? ==> ServerStep(r, Update(r, base, o).value)
    ensures Update(r, base, o).Some? && o.finalizers != {} ==>
      Update(r, base, o).value == r.(versions := r.versions
        + [o.(status := r.Current().status, deletedAt := r.Current().deletedAt)])
  {
  }

  lemma UpdateStatusEffect(r: Record, base: nat, status: Status)
    requires r.Valid()
    ensures UpdateStatus(r, base, status).Some? ==>
      && base < |r.versions| && r.versions[base] == r.Current()
      && ServerStep(r, UpdateStatus(r, base, status).value)
      && (r.Current().finalizers != {} ==>
            UpdateStatus(r, base, status).value == r.(versions := r.versions + [r.Current().(status := status)]))
  {
  }
}
