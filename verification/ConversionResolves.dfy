/** Whether the calls that the generated conversion code contains name generated functions. */
module ConversionResolves {
  import opened Wrappers
  import opened ConversionTargets
  import opened ConversionCalls

  predicate FileGenerated(d: Descriptors, m: Id)
    requires m in d.messages
  {
    exists i :: 0 <= i < |d.files| && d.files[i].path == d.messages[m].file && d.files[i].generate
  }

  /** `generateFileSpoke` writes Convert functions for the targets of generated files that are no CRDs. */
  predicate HasConvertFunction(d: Descriptors, targets: set<Id>, m: Id) {
    m in targets && m in d.messages && FileGenerated(d, m) && !d.messages[m].crd
  }

  ghost predicate AreTargets(d: Descriptors, pkg: string, targets: set<Id>) {
    forall t :: t in targets <==> Needed(d, pkg, t)
  }

  // ---- Calls between Convert functions ----

  /** Every call in a body names a generated function. */
  predicate CallsResolve(d: Descriptors, targets: set<Id>, code: Code) {
    forall e :: e in Assignments(code) && e.call.Some? ==> HasConvertFunction(d, targets, e.call.value)
  }

  /** What a target calls, in either direction, is a target. */
  lemma CallsAreTargets(d: Descriptors, pkg: string, targets: set<Id>, m: Id, hub: Message, toHub: bool, e: Assignment)
    requires AreTargets(d, pkg, targets) && m in targets && m in d.messages && e.call.Some?
    requires IsAssignment(d, pkg, d.messages[m], hub, toHub, e)
    ensures e.call.value in targets && e.call.value in d.messages && d.messages[e.call.value].pkg == pkg
  {
    hide Needed, TargetName, LastOfTarget;
    assert DependsOn(d, pkg, m, e.call.value);
    NeededOn(d, pkg, m, e.call.value);
  }

  predicate PackageGenerated(d: Descriptors, pkg: string) {
    forall m :: m in d.messages && d.messages[m].pkg == pkg ==> FileGenerated(d, m)
  }

  /** When all files of the package are generated, the body of a target, in either direction, resolves if and
      only if none of the messages it draws in through an assigned field is itself a CRD. */
  lemma ResolvesIffNoNestedCrd(d: Descriptors, pkg: string, targets: set<Id>, m: Id, hub: Message, toHub: bool,
                               code: Code)
    requires d.Closed() && AreTargets(d, pkg, targets) && m in targets && m in d.messages
    requires PackageGenerated(d, pkg) && IsCode(d, pkg, d.messages[m], hub, toHub, code)
    ensures CallsResolve(d, targets, code)
       <==> forall j: nat, a: nat :: Assigned(d.messages[m], hub, toHub, j, a) ==>
              var c := Dependency(d, pkg, d.messages[m].fields[j]); c.Some? ==> !d.messages[c.value].crd
  {
    hide AreTargets, FileGenerated, IsCode, Assignments, Assigned, Dependency, Message.Sound;
    var spoke := d.messages[m];
    SoundMessage(d, m);
    BodyAssigns(d, pkg, spoke, hub, toHub, code);
    forall e | IsAssignment(d, pkg, spoke, hub, toHub, e) && e.call.Some?
      ensures e.call.value in targets && e.call.value in d.messages && d.messages[e.call.value].pkg == pkg
    {
      CallsAreTargets(d, pkg, targets, m, hub, toHub, e);
    }
    forall j: nat, a: nat | Assigned(spoke, hub, toHub, j, a)
      ensures j < |spoke.fields|
      ensures IsAssignment(d, pkg, spoke, hub, toHub, Assignment(j, a, Dependency(d, pkg, spoke.fields[j])))
    {
      AssignedIsField(spoke, hub, toHub, j, a);
    }
  }

  lemma SoundMessage(d: Descriptors, m: Id)
    requires d.Closed() && m in d.messages
    ensures d.messages[m].Sound()
  {
  }

  lemma AssignedIsField(spoke: Message, hub: Message, toHub: bool, j: nat, a: nat)
    requires Assigned(spoke, hub, toHub, j, a)
    ensures j < |spoke.fields|
  {
  }

  // ---- The Spec and Status of a CRD ----

  /** `ConvertTo` and `ConvertFrom` of a CRD X call Convert<X>SpecToHub and so on, by name, on the fields
      Spec and Status of X. */
  datatype Part = Spec | Status {
    function FieldName(): string {
      if Spec? then "spec" else "status"
    }

    function Suffix(): string {
      if Spec? then "Spec" else "Status"
    }
  }

  /** Field k of X is its Spec or Status and of message type t. */
  predicate CarriesPart(d: Descriptors, x: Id, part: Part, k: nat, t: Id)
    requires x in d.messages
  {
    && k < |d.messages[x].fields| && d.messages[x].fields[k].name == part.FieldName()
    && d.messages[x].fields[k].shape == Single && d.messages[x].fields[k].elem == MessageOf(t)
  }

  /** The message whose Convert functions X calls by name. */
  predicate NamedPart(d: Descriptors, pkg: string, x: Id, part: Part, t: Id)
    requires x in d.messages
  {
    t in d.messages && d.messages[t].pkg == pkg && d.messages[t].goName == d.messages[x].goName + part.Suffix()
  }

  /** The call names a generated function, and the field is of the type that this function takes. */
  ghost predicate PartResolves(d: Descriptors, pkg: string, targets: set<Id>, x: Id, part: Part)
    requires x in d.messages
  {
    exists k: nat, t ::
      CarriesPart(d, x, part, k, t) && NamedPart(d, pkg, x, part, t) && HasConvertFunction(d, targets, t)
  }

  /** Named after X, in the package, in a generated file, and no CRD itself. */
  predicate FitsPart(d: Descriptors, pkg: string, x: Id, part: Part, t: Id)
    requires x in d.messages
  {
    NamedPart(d, pkg, x, part, t) && !d.messages[t].crd && FileGenerated(d, t)
  }

  /** t is drawn in by something that is not an ignored field: it is marked itself, or a target has a field
      of it that is not ignored. */
  predicate DrawnIn(d: Descriptors, pkg: string, targets: set<Id>, t: Id) {
    IsRoot(d, pkg, t) || exists a :: a in targets && DependsOn(d, pkg, a, t)
  }

  /** What is needed is marked, or some needed message depends on it. */
  lemma NeededIffDrawnIn(d: Descriptors, pkg: string, targets: set<Id>, t: Id)
    requires AreTargets(d, pkg, targets)
    ensures t in targets <==> DrawnIn(d, pkg, targets, t)
  {
    hide IsRoot, DependsOn;
    if t in targets {
      var p :| IsWay(d, pkg, p) && IsRoot(d, pkg, p[0]) && p[|p| - 1] == t;
      if |p| > 1 {
        var q := p[..|p| - 1];
        assert IsWay(d, pkg, q) by {
          forall k | 0 <= k < |q| - 1 ensures DependsOn(d, pkg, q[k], q[k + 1]) {
            assert DependsOn(d, pkg, p[k], p[k + 1]);
          }
        }
        assert q[0] == p[0];
        assert Needed(d, pkg, p[|p| - 2]) && DependsOn(d, pkg, p[|p| - 2], p[|p| - 1]);
      }
    } else if IsRoot(d, pkg, t) {
      RootNeeded(d, pkg, t);
    } else if exists a :: a in targets && DependsOn(d, pkg, a, t) {
      var a :| a in targets && DependsOn(d, pkg, a, t);
      NeededOn(d, pkg, a, t);
    }
  }

  /** The calls of a CRD for its Spec or Status resolve if and only if that field is of a fitting message and
      not ignored; or it is ignored, but the message is drawn in by something else. */
  lemma PartResolvesIff(d: Descriptors, pkg: string, targets: set<Id>, x: Id, part: Part)
    requires AreTargets(d, pkg, targets) && x in targets && x in d.messages
    ensures PartResolves(d, pkg, targets, x, part)
       <==> exists k: nat, t :: CarriesPart(d, x, part, k, t) && FitsPart(d, pkg, x, part, t)
              && (!d.messages[x].fields[k].ignored || DrawnIn(d, pkg, targets, t))
  {
    hide AreTargets, FileGenerated, IsRoot;
    forall k: nat, t | CarriesPart(d, x, part, k, t) && NamedPart(d, pkg, x, part, t)
      ensures !d.messages[x].fields[k].ignored ==> DrawnIn(d, pkg, targets, t)
      ensures DrawnIn(d, pkg, targets, t) <==> t in targets
    {
      NeededIffDrawnIn(d, pkg, targets, t);
      if !d.messages[x].fields[k].ignored {
        assert Dependency(d, pkg, d.messages[x].fields[k]) == Some(t);
        assert DependsOn(d, pkg, x, t);
      }
    }
  }

  /** With the field not ignored, nothing but X, the field's type and its file matters. */
  lemma UnignoredPartResolvesIff(d: Descriptors, pkg: string, targets: set<Id>, x: Id, part: Part)
    requires AreTargets(d, pkg, targets) && x in targets && x in d.messages
    requires forall k :: 0 <= k < |d.messages[x].fields| && d.messages[x].fields[k].name == part.FieldName() ==>
      !d.messages[x].fields[k].ignored
    ensures PartResolves(d, pkg, targets, x, part)
       <==> exists k: nat, t :: CarriesPart(d, x, part, k, t) && FitsPart(d, pkg, x, part, t)
  {
    hide AreTargets, FitsPart, DrawnIn;
    PartResolvesIff(d, pkg, targets, x, part);
  }

  // ---- A package whose code does not compile ----

  /** The CRD Job has a JobSpec, which holds the CRD Pool; and its status is called JobState. */
  const OWNER := Field("pool", Single, MessageOf("Pool"), false, "", None)
  const JOB := Message("v1", "job.proto", "Job", "", true, true, [],
    [Field("spec", Single, MessageOf("JobSpec"), false, "", None),
     Field("status", Single, MessageOf("JobState"), false, "", None)])
  const JOB_SPEC := Message("v1", "job.proto", "JobSpec", "", false, false, [], [OWNER])
  const JOB_STATE := Message("v1", "job.proto", "JobState", "", false, false, [], [])
  const POOL := Message("v1", "job.proto", "Pool", "", true, false, [], [])
  const JOBS := Descriptors(
    [File("job.proto", "v1", ["Job", "JobSpec", "JobState", "Pool"], true)],
    map["Job" := JOB, "JobSpec" := JOB_SPEC, "JobState" := JOB_STATE, "Pool" := POOL])
  const JOB_TARGETS: set<Id> := {"Job", "JobSpec", "JobState", "Pool"}

  lemma JobsAreSound()
    ensures JOB.Sound() && JOB_SPEC.Sound() && JOB_STATE.Sound() && POOL.Sound()
  {
    assert JOB.fields[0].name[1] != JOB.fields[1].name[1];
  }

  lemma JobsAreClosed()
    ensures JOBS.Closed()
  {
    JobsAreSound();
    hide Message.Sound;
  }

  lemma JobsAreGenerated()
    ensures PackageGenerated(JOBS, "v1")
  {
    assert JOBS.files[0].path == "job.proto";
  }

  lemma JobIsRoot()
    ensures forall m :: IsRoot(JOBS, "v1", m) <==> m == "Job"
  {
    assert JOBS.files[0].messages[0] == "Job";
  }

  lemma JobDepends()
    ensures DependsOn(JOBS, "v1", "Job", "JobSpec") && DependsOn(JOBS, "v1", "Job", "JobState")
    ensures DependsOn(JOBS, "v1", "JobSpec", "Pool")
    ensures ClosedUnder(JOBS, "v1", JOB_TARGETS, JOB_TARGETS)
  {
    assert Dependency(JOBS, "v1", JOB.fields[0]) == Some("JobSpec");
    assert Dependency(JOBS, "v1", JOB.fields[1]) == Some("JobState");
    assert Dependency(JOBS, "v1", JOB_SPEC.fields[0]) == Some("Pool");
  }

  lemma JobTargets()
    ensures AreTargets(JOBS, "v1", JOB_TARGETS)
  {
    JobIsRoot();
    JobDepends();
    hide IsRoot, DependsOn, ClosedUnder, Needed;
    RootNeeded(JOBS, "v1", "Job");
    NeededOn(JOBS, "v1", "Job", "JobSpec");
    NeededOn(JOBS, "v1", "Job", "JobState");
    NeededOn(JOBS, "v1", "JobSpec", "Pool");
    forall m | Needed(JOBS, "v1", m) ensures m in JOB_TARGETS {
      ClosedHasNeeded(JOBS, "v1", JOB_TARGETS, m);
    }
  }

  lemma PoolIsAssigned(hub: Message, toHub: bool)
    requires hub.fields == [OWNER]
    ensures Assigned(JOB_SPEC, hub, toHub, 0, 0) && Dependency(JOBS, "v1", JOB_SPEC.fields[0]) == Some("Pool")
    ensures JOBS.messages["JobSpec"] == JOB_SPEC && JOBS.messages["Pool"].crd
  {
  }

  /** JobSpec's body calls a function for Pool, which as a CRD has none. */
  lemma NestedCrdDoesNotResolve(hub: Message, toHub: bool, code: Code)
    requires hub.fields == [OWNER] && IsCode(JOBS, "v1", JOB_SPEC, hub, toHub, code)
    ensures !CallsResolve(JOBS, JOB_TARGETS, code)
  {
    PoolIsAssigned(hub, toHub);
    JobsAreClosed();
    JobsAreGenerated();
    JobTargets();
    hide Assigned, AreTargets, IsCode, Descriptors.Closed, PackageGenerated, CallsResolve, Dependency;
    ResolvesIffNoNestedCrd(JOBS, "v1", JOB_TARGETS, "JobSpec", hub, toHub, code);
  }

  /** Job's Spec resolves, its Status does not: there is no message JobStatus. */
  lemma MisnamedStatusDoesNotResolve()
    ensures PartResolves(JOBS, "v1", JOB_TARGETS, "Job", Spec)
    ensures !PartResolves(JOBS, "v1", JOB_TARGETS, "Job", Status)
  {
    assert JOBS.files[0].path == "job.proto";
    assert CarriesPart(JOBS, "Job", Spec, 0, "JobSpec") && NamedPart(JOBS, "v1", "Job", Spec, "JobSpec");
    forall t ensures !NamedPart(JOBS, "v1", "Job", Status, t) {
      assert ("Job" + "Status")[0] == 'J' && ("Job" + "Status")[6] == 't' && |"Job" + "Status"| == 9;
    }
  }
}
