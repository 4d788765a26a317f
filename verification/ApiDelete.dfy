/** The API server's delete handler as code. It marks, it does not delete: the ingester does. */
module ApiDelete {
  import opened Wrappers
  import opened KubeObjects
  import opened KubeClient
  import opened Ingestion
  import opened IngesterStep
  import Laws = IngesterAnswers

  /** Unavailable asks the caller to try again later; Refused stands for the other errors. */
  datatype Answer = Done | Unavailable | Refused

  class ApiHandler {
    const server: ApiServer
    const store: MetadataStore
    ghost var userDeleted: bool

    constructor (server: ApiServer, store: MetadataStore)
      ensures this.server == server && this.store == store && !userDeleted
    {
      this.server, this.store := server, store;
      userDeleted := false;
    }

    ghost function At(pc: Pc, seen: nat): Cell
      reads this, server, store
    {
      Cell(server.record, store.row, pc, seen, userDeleted)
    }

    method DeleteFromStore(answers: bool) returns (answer: Answer)
      modifies this, store
      ensures answer == if answers && old(store.row).Live? then Done else Refused
      ensures if answers then Laws.Stamped(old(store.row), store.row) else store.row == old(store.row)
      ensures userDeleted == (old(userDeleted) || (answers && old(store.row).Live?))
    {
      var err := store.Delete(answers);
      answer := if err == NoError then Done else Refused;
      userDeleted := userDeleted || err == NoError;
    }

    /** `apiHandler.Delete` with metadata storage on. `copy` is what Get returned, null for NotFound. */
    method Delete(copy: ObjectCopy?, policy: Option<string>, dryRun: bool, answers: bool, ghost pc: Pc, ghost seen: nat)
      returns (answer: Answer)
      requires server.record.Valid()
      requires copy != null ==>
        copy.resourceVersion < |server.record.versions| && copy.Value() == server.record.versions[copy.resourceVersion]
      modifies this, server, store
      modifies if copy == null then {} else {copy}
      ensures var version := if copy == null then 0 else old(copy.resourceVersion);
        At(pc, seen) == HandleApiDelete(old(At(pc, seen)), copy != null, version, policy, answers && !dryRun)
      ensures answer.Unavailable? <==>
        copy != null && Laws.MarkedImmutable(old(copy.Value())) && old(copy.deletedAt).None?
      ensures dryRun && !answer.Unavailable? ==> answer.Done?
      ensures !dryRun && !answer.Unavailable? ==>
        (answer.Done? <==> && answers
                           && if copy != null && !Laws.MarkedImmutable(old(copy.Value())) then
                                UpToDate(old(server.record), old(copy.resourceVersion))
                              else old(store.row).Live?)
    {
      hide KubeObjects.Update;
      if copy != null {
        Laws.Names(copy.Value());
        if IsImmutable(copy.Value()) {
          if copy.deletedAt.Some? {
            if dryRun { return Done; }
            answer := DeleteFromStore(answers);
            return;
          }
          return Unavailable;
        }
        if dryRun { return Done; }
        ghost var o := copy.Value();
        copy.Annotate(DELETING_ANNOTATION, "true");
        if policy.Some? {
          copy.Annotate(DELETE_PROPAGATION_ANNOTATION, policy.value);
        }
        assert copy.Value() == Marked(o, policy);
        MarkAllowed(server.record, copy.resourceVersion, policy);
        var err := server.Update(copy.resourceVersion, copy.Value(), answers);
        return if err then Refused else Done;
      }
      if dryRun { return Done; }
      answer := DeleteFromStore(answers);
    }
  }

  /** The mark is refused only to a stale copy. */
  lemma MarkAllowed(r: Record, base: nat, policy: Option<string>)
    requires base < |r.versions|
    ensures Update(r, base, Marked(r.versions[base], policy)).Some? <==> UpToDate(r, base)
  {
  }
}
