/** The two ends of an API call: the server holding one object, and the in-memory copy a controller works
    on. */
module KubeClient {
  import opened Wrappers
  import opened KubeObjects

  /** The API server's view of one object. `answers` says whether a call gets through. */
  class ApiServer {
    var record: Record

    constructor (r: Record)
      ensures record == r
    {
      record := r;
    }

    method Update(base: nat, o: Object, answers: bool) returns (err: bool)
      modifies this
      ensures err <==> !answers || KubeObjects.Update(old(record), base, o).None?
      ensures record == if err then old(record) else KubeObjects.Update(old(record), base, o).value
    {
      var r := KubeObjects.Update(record, base, o);
      err := !answers || r.None?;
      if !err {
        record := r.value;
      }
    }

    method UpdateStatus(base: nat, status: Status, answers: bool) returns (err: bool)
      modifies this
      ensures err <==> !answers || KubeObjects.UpdateStatus(old(record), base, status).None?
      ensures record == if err then old(record) else KubeObjects.UpdateStatus(old(record), base, status).value
    {
      var r := KubeObjects.UpdateStatus(record, base, status);
      err := !answers || r.None?;
      if !err {
        record := r.value;
      }
    }

    /** NotFound is an error. */
    method Delete(now: int, propagation: set<string>, answers: bool) returns (err: bool)
      modifies this
      ensures err <==> !answers || KubeObjects.Delete(old(record), now, propagation).None?
      ensures record == if err then old(record) else KubeObjects.Delete(old(record), now, propagation).value
    {
      var r := KubeObjects.Delete(record, now, propagation);
      err := !answers || r.None?;
      if !err {
        record := r.value;
      }
    }
  }

  /** The copy of an object that a reconcile works on. */
  class ObjectCopy {
    var resourceVersion: nat
    var finalizers: set<string>
    var annotations: Annotations
    var deletedAt: Option<int>
    var kill: bool
    var body: int
    var status: Status

    constructor (version: nat, o: Object, seen: Status)
      ensures resourceVersion == version && Value() == o.(status := seen)
    {
      resourceVersion, finalizers, annotations, deletedAt := version, o.finalizers, o.annotations, o.deletedAt;
      kill, body, status := o.kill, o.body, seen;
    }

    function Value(): Object
      reads this
    {
      Object(finalizers, annotations, deletedAt, kill, body, status)
    }

    method MarkDrainCounted()
      modifies this`annotations
      ensures IsDrainCounted(Value())
      ensures annotations == old(annotations)[DRAIN_COUNTED_ANNOTATION := "true"]
    {
      annotations := annotations[DRAIN_COUNTED_ANNOTATION := "true"];
    }

    /** Absent keys stay absent, and all other annotations stay. */
    method ClearDrainCounted()
      modifies this`annotations
      ensures !IsDrainCounted(Value())
      ensures annotations == old(annotations) - {DRAIN_COUNTED_ANNOTATION}
    {
      annotations := annotations - {DRAIN_COUNTED_ANNOTATION};
    }

    method Annotate(key: string, text: string)
      modifies this`annotations
      ensures annotations == old(annotations)[key := text]
    {
      annotations := annotations[key := text];
    }

    method MarkImmutable()
      modifies this`annotations
      ensures annotations == old(annotations)[IMMUTABLE_ANNOTATION := "true"]
    {
      annotations := annotations[IMMUTABLE_ANNOTATION := "true"];
    }

    method AddFinalizer(f: string)
      modifies this`finalizers
      ensures finalizers == old(finalizers) + {f}
    {
      finalizers := finalizers + {f};
    }

    method RemoveFinalizer(f: string)
      modifies this`finalizers
      ensures finalizers == old(finalizers) - {f}
    {
      finalizers := finalizers - {f};
    }

    /** The server's answer to a write replaces the copy. */
    method Refresh(version: nat, o: Object)
      modifies this
      ensures resourceVersion == version && Value() == o
    {
      resourceVersion, finalizers, annotations, deletedAt := version, o.finalizers, o.annotations, o.deletedAt;
      kill, body, status := o.kill, o.body, o.status;
    }
  }
}
