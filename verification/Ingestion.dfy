/** The ingester: it mirrors one object into a metadata row and guards the object's end with a finalizer.
    The ingester, the API server's delete handler and everybody else interleave call by call; any call may
    fail without effect; the ingester's reads may be stale but never go back. */
module Ingestion {
  import opened Wrappers
  import opened KubeObjects

  const DELETE_PROPAGATION_ANNOTATION := "michelangelo/DeletePropagation"

  // ---- The metadata row ----

  /** A row is never physically removed: deleting stamps delete_time, and a later upsert of the same
      primary key does not clear the stamp. `version` is the stored copy of the object. */
  datatype Row = NoRow | Live(version: nat) | Tombstone(version: nat)

  function Upsert(row: Row, version: nat): Row {
    if row.Tombstone? then Tombstone(version) else Live(version)
  }

  /** None is NotFound: no live row. */
  function DeleteRow(row: Row): Option<Row> {
    if row.Live? then Some(Tombstone(row.version)) else None
  }

  // ---- State ----

  /** `retained`: the kind's final state is kept when it is deleted directly. */
  datatype Config = Config(retained: bool, immutableKind: bool)

  /** The ingester between two calls: with the version read, about to remove the finalizer (and then to
      delete, for an immutable object), about to delete. */
  datatype Pc =
    | Idle
    | Deciding(base: nat)
    | Removing(base: nat, thenDelete: bool)
    | Deleting(base: nat)

  /** `seen` is the newest version the ingester has read. `userDeleted` records that the API deleted the
      row itself, on a request for an object no longer served from Kubernetes. */
  datatype Cell = Cell(record: Record, row: Row, pc: Pc, seen: nat, userDeleted: bool)

  datatype Action =
    | Read(version: nat)
    | Decide(ok: bool)
    | Remove(ok: bool)
    | DeleteCall(ok: bool, now: int)
    | ApiDelete(found: bool, version: nat, policy: Option<string>, ok: bool)
    | Outside(next: Record)

  function Propagation(o: Object): set<string> {
    var policy := Lookup(o.annotations, DELETE_PROPAGATION_ANNOTATION);
    if policy == "Foreground" then {"foregroundDeletion"} else if policy == "Orphan" then {"orphan"} else {}
  }

  // ---- The reconcile, call by call ----

  /** `handleDeletion` up to the removal of the finalizer. */
  function HandleDeletion(cfg: Config, c: Cell, base: nat, ok: bool): Cell
    requires base < |c.record.versions|
  {
    var o := c.record.versions[base];
    if INGESTER_FINALIZER !in o.finalizers then c.(pc := Idle)
    else if IsDeletingAnnotationSet(o) then c.(pc := Removing(base, false))
    else HandleCascadeDeletion(cfg, c, base, ok)
  }

  /** Directly deleted: a kind that is not retained loses its row, NotFound being no error; a retained one
      is saved, and waits while another finalizer stands. */
  function HandleCascadeDeletion(cfg: Config, c: Cell, base: nat, ok: bool): Cell
    requires base < |c.record.versions|
  {
    if !ok then c.(pc := Idle)
    else if !cfg.retained then
      c.(row := if DeleteRow(c.row).Some? then DeleteRow(c.row).value else c.row, pc := Removing(base, false))
    else if c.record.versions[base].finalizers - {INGESTER_FINALIZER} != {} then
      c.(row := Upsert(c.row, base), pc := Idle)
    else
      c.(row := Upsert(c.row, base), pc := Removing(base, false))
  }

  /** `handleDeletionAnnotation` up to the Kubernetes delete: here NotFound is an error. */
  function HandleDeletionAnnotation(c: Cell, base: nat, ok: bool): Cell {
    if !ok || DeleteRow(c.row).None? then c.(pc := Idle)
    else c.(row := DeleteRow(c.row).value, pc := Deleting(base))
  }

  function WithPrimaryKey(o: Object): Object {
    o.(annotations := o.annotations[PRIMARY_KEY_ANNOTATION := "uid"])
  }

  function Reconcile(cfg: Config, c: Cell, base: nat, ok: bool): Cell
    requires base < |c.record.versions|
  {
    var o := c.record.versions[base];
    if o.deletedAt.Some? then HandleDeletion(cfg, c, base, ok)
    else if IsDeletingAnnotationSet(o) then HandleDeletionAnnotation(c, base, ok)
    else if PRIMARY_KEY_ANNOTATION !in o.annotations then
      var r := Update(c.record, base, WithPrimaryKey(o));
      c.(record := if ok && r.Some? then r.value else c.record, pc := Idle)
    else if !ok then c.(pc := Idle)
    else
      var next := if IsImmutable(o) || cfg.immutableKind then Removing(base, true) else Idle;
      c.(row := Upsert(c.row, base), pc := next)
  }

  function RemoveFinalizer(c: Cell, base: nat, thenDelete: bool, ok: bool): Cell
    requires base < |c.record.versions|
  {
    var o := c.record.versions[base];
    var r := Update(c.record, base, o.(finalizers := o.finalizers - {INGESTER_FINALIZER}));
    if !ok || r.None? then c.(pc := Idle)
    else c.(record := r.value, pc := if thenDelete then Deleting(base) else Idle)
  }

  function DeleteObject(c: Cell, base: nat, ok: bool, now: int): Cell
    requires base < |c.record.versions|
  {
    var r := Delete(c.record, now, Propagation(c.record.versions[base]));
    c.(record := if ok && r.Some? then r.value else c.record, pc := Idle)
  }

  /** Marked for deletion, with the caller's propagation policy if there is one. */
  function Marked(o: Object, policy: Option<string>): Object {
    var marked := o.annotations[DELETING_ANNOTATION := "true"];
    o.(annotations := if policy.None? then marked else marked[DELETE_PROPAGATION_ANNOTATION := policy.value])
  }

  /** `apiHandler.Delete`: mark a mutable object; delete the row of an immutable object that is already on
      its way out, or of an object that Kubernetes no longer has; refuse in between. */
  function HandleApiDelete(c: Cell, found: bool, version: nat, policy: Option<string>, ok: bool): Cell
    requires version < |c.record.versions|
  {
    var o := c.record.versions[version];
    if !ok then c
    else if !found || (IsImmutable(o) && o.deletedAt.Some?) then
      if DeleteRow(c.row).Some? then c.(row := DeleteRow(c.row).value, userDeleted := true) else c
    else if IsImmutable(o) then c
    else
      var r := Update(c.record, version, Marked(o, policy));
      if r.Some? then c.(record := r.value) else c
  }

  /** What everybody else may do: anything the server allows that leaves the ingester's finalizer. */
  predicate Respects(r: Record, r': Record) {
    ServerStep(r, r') && KeepsFinalizer(r, r', INGESTER_FINALIZER)
  }

  predicate Enabled(c: Cell, a: Action) {
    match a
    case Read(v) => c.pc.Idle? && c.seen <= v < |c.record.versions|
    case Decide(_) => c.pc.Deciding? && c.pc.base < |c.record.versions|
    case Remove(_) => c.pc.Removing? && c.pc.base < |c.record.versions|
    case DeleteCall(_, _) => c.pc.Deleting? && c.pc.base < |c.record.versions|
    case ApiDelete(_, v, _, _) => v < |c.record.versions|
    case Outside(next) => c.record.Valid() && Respects(c.record, next)
  }

  function Step(cfg: Config, c: Cell, a: Action): Cell {
    if !Enabled(c, a) then c else
    match a
    case Read(v) => c.(pc := Deciding(v), seen := v)
    case Decide(ok) => Reconcile(cfg, c, c.pc.base, ok)
    case Remove(ok) => RemoveFinalizer(c, c.pc.base, c.pc.thenDelete, ok)
    case DeleteCall(ok, now) => DeleteObject(c, c.pc.base, ok, now)
    case ApiDelete(found, v, policy, ok) => HandleApiDelete(c, found, v, policy, ok)
    case Outside(next) => c.(record := next)
  }

  function Run(cfg: Config, c: Cell, actions: seq<Action>): Cell
    decreases |actions|
  {
    if actions == [] then c else Run(cfg, Step(cfg, c, actions[0]), actions[1..])
  }

  lemma RunOne(cfg: Config, c: Cell, a: Action)
    ensures Run(cfg, c, [a]) == Step(cfg, c, a)
  {
    hide Step;
    assert [a][1..] == [];
  }

  lemma RunThree(cfg: Config, c: Cell, a: seq<Action>)
    requires |a| == 3
    ensures Run(cfg, c, a) == Step(cfg, Step(cfg, Step(cfg, c, a[0]), a[1]), a[2])
  {
    hide Step;
    assert a[1..][0] == a[1] && a[1..][1..] == [a[2]] && [a[2]][1..] == [];
    assert Run(cfg, Step(cfg, c, a[0]), a[1..]) == Run(cfg, Step(cfg, Step(cfg, c, a[0]), a[1]), [a[2]]);
  }

  lemma RunFour(cfg: Config, c: Cell, a: seq<Action>)
    requires |a| == 4
    ensures Run(cfg, c, a) == Step(cfg, Step(cfg, Step(cfg, Step(cfg, c, a[0]), a[1]), a[2]), a[3])
  {
    hide Step;
    var b := a[1..];
    assert b[0] == a[1] && b[1..][0] == a[2] && b[1..][1..] == [a[3]] && [a[3]][1..] == [];
    var c1 := Step(cfg, c, a[0]);
    assert Run(cfg, c1, b) == Run(cfg, Step(cfg, c1, a[1]), b[1..]);
    assert Run(cfg, Step(cfg, c1, a[1]), b[1..]) == Run(cfg, Step(cfg, Step(cfg, c1, a[1]), a[2]), [a[3]]);
  }
}
