/** The code that the generator writes into a pair of Convert functions: which assignments, in which order. */
module ConversionCalls {
  import opened Wrappers
  import opened ConversionTargets
  import opened ConversionFits

  /** An emitted assignment between spoke field `spoke` and hub field `hub`, and the message whose Convert
      function it calls, if any. */
  datatype Assignment = Assignment(spoke: nat, hub: nat, call: Option<Id>)

  /** A type switch on the oneof `from`, whose cases set the oneof `to`. */
  datatype Switch = Switch(from: string, to: string, cases: seq<Assignment>)

  datatype Code = Code(plain: seq<Assignment>, switches: seq<Switch>)

  /** The hub field that a spoke field is mapped to. */
  function TargetName(f: Field): string {
    if f.renameTo != "" then f.renameTo else f.name
  }

  /** Spoke field j is mapped to hub field a. */
  predicate Pairs(spoke: Message, hub: Message, j: nat, a: nat) {
    && j < |spoke.fields| && a < |hub.fields|
    && !spoke.fields[j].ignored && TargetName(spoke.fields[j]) == hub.fields[a].name
  }

  // ---- What each direction should contain ----

  predicate InGroup(spoke: Message, hub: Message, oo: string, j: nat, a: nat) {
    Pairs(spoke, hub, j, a) && spoke.fields[j].oneof == Some(oo)
  }

  /** The mapped members of a spoke oneof go to members of one hub oneof. */
  ghost predicate GroupFits(spoke: Message, hub: Message, oo: string) {
    forall j: nat, a: nat, k: nat, b: nat :: InGroup(spoke, hub, oo, j, a) && InGroup(spoke, hub, oo, k, b) ==>
      hub.fields[a].oneof.Some? && hub.fields[a].oneof == hub.fields[b].oneof
  }

  ghost predicate GroupsFit(spoke: Message, hub: Message) {
    forall oo :: oo in spoke.oneofs ==> GroupFits(spoke, hub, oo)
  }

  /** Every hub field is mapped or listed in ignore_unmapped_hub_fields. */
  ghost predicate Covered(spoke: Message, hub: Message, ignore: set<string>) {
    forall a: nat :: a < |hub.fields| ==> hub.fields[a].name in ignore || exists j :: Pairs(spoke, hub, j, a)
  }

  /** No later field, plain or of the same oneof, has the same target. */
  predicate LastOfTarget(spoke: Message, j: nat)
    requires j < |spoke.fields|
  {
    forall k :: j < k < |spoke.fields| && spoke.fields[k].oneof == spoke.fields[j].oneof && !spoke.fields[k].ignored ==>
      TargetName(spoke.fields[k]) != TargetName(spoke.fields[j])
  }

  /** From the hub to the spoke the last field of a target is assigned, plain from plain and oneof member
      from oneof member. */
  predicate Feeds(spoke: Message, hub: Message, j: nat, a: nat) {
    && Pairs(spoke, hub, j, a) && spoke.fields[j].oneof.Some? == hub.fields[a].oneof.Some? && LastOfTarget(spoke, j)
  }

  /** The pairs assigned in one direction: all mapped ones to the hub, those that feed back from it. */
  predicate Assigned(spoke: Message, hub: Message, toHub: bool, j: nat, a: nat) {
    if toHub then Pairs(spoke, hub, j, a) else Feeds(spoke, hub, j, a)
  }

  /** An assignment of that direction within one group, that is among the plain fields or in one oneof. */
  predicate Belongs(d: Descriptors, pkg: string, spoke: Message, hub: Message, toHub: bool, group: Option<string>,
                    e: Assignment)
  {
    && Assigned(spoke, hub, toHub, e.spoke, e.hub) && spoke.fields[e.spoke].oneof == group
    && e.call == Dependency(d, pkg, spoke.fields[e.spoke])
  }

  /** The side that decides the order of emission: the fields read. */
  function Source(e: Assignment, toHub: bool): nat {
    if toHub then e.spoke else e.hub
  }

  /** All assignments of a group, each once, in the order of the fields read. */
  ghost predicate AllOf(d: Descriptors, pkg: string, spoke: Message, hub: Message, toHub: bool,
                        group: Option<string>, es: seq<Assignment>)
  {
    && (forall e :: e in es <==> Belongs(d, pkg, spoke, hub, toHub, group, e))
    && (forall x, y :: 0 <= x < y < |es| ==> Source(es[x], toHub) < Source(es[y], toHub))
  }

  /** The switch of a spoke oneof: from it to the hub oneof of its members, or back. */
  ghost predicate IsSwitch(d: Descriptors, pkg: string, spoke: Message, hub: Message, toHub: bool, oo: string,
                           sw: Switch)
  {
    && sw.cases != [] && AllOf(d, pkg, spoke, hub, toHub, Some(oo), sw.cases)
    && (if toHub then sw.from else sw.to) == oo
    && forall e :: e in sw.cases ==> hub.fields[e.hub].oneof == Some(if toHub then sw.to else sw.from)
  }

  ghost predicate HasMembers(spoke: Message, hub: Message, oo: string) {
    exists j, a :: InGroup(spoke, hub, oo, j, a)
  }

  /** One switch for each oneof with mapped members, in order. */
  ghost predicate AreSwitches(d: Descriptors, pkg: string, spoke: Message, hub: Message, toHub: bool,
                              oneofs: seq<string>, sws: seq<Switch>)
    decreases |oneofs|
  {
    if oneofs == [] then sws == [] else
    var oo, rest := oneofs[|oneofs| - 1], oneofs[..|oneofs| - 1];
    if HasMembers(spoke, hub, oo) then
      && sws != [] && IsSwitch(d, pkg, spoke, hub, toHub, oo, sws[|sws| - 1])
      && AreSwitches(d, pkg, spoke, hub, toHub, rest, sws[..|sws| - 1])
    else AreSwitches(d, pkg, spoke, hub, toHub, rest, sws)
  }

  /** The body of one Convert function. */
  ghost predicate IsCode(d: Descriptors, pkg: string, spoke: Message, hub: Message, toHub: bool, code: Code) {
    && AllOf(d, pkg, spoke, hub, toHub, None, code.plain)
    && AreSwitches(d, pkg, spoke, hub, toHub, spoke.oneofs, code.switches)
  }

  /** The fields assigned in a group are of fitting types. */
  ghost predicate TypesFit(d: Descriptors, pkg: string, spoke: Message, hub: Message, toHub: bool,
                           group: Option<string>)
  {
    forall j: nat, a: nat :: Assigned(spoke, hub, toHub, j, a) && spoke.fields[j].oneof == group ==>
      FieldFits(d, pkg, spoke, hub, toHub, j, a)
  }

  predicate FieldFits(d: Descriptors, pkg: string, spoke: Message, hub: Message, toHub: bool, j: nat, a: nat)
    requires j < |spoke.fields| && a < |hub.fields|
  {
    if spoke.fields[j].oneof.None? then
      PlainFits(d, pkg, spoke.renameTo, spoke.fields[j], hub.fields[a], toHub)
    else MemberFits(d, pkg, spoke.fields[j], hub.fields[a])
  }

  /** Everything that the generator of one direction tests before it writes a field. */
  ghost predicate Accepts(d: Descriptors, pkg: string, spoke: Message, hub: Message, toHub: bool) {
    && TypesFit(d, pkg, spoke, hub, toHub, None)
    && GroupsFit(spoke, hub)
    && forall oo :: oo in spoke.oneofs ==> TypesFit(d, pkg, spoke, hub, toHub, Some(oo))
  }

  // ---- The generator ----

  /** `generateFieldAssignment` and `generateOneofFieldAssignment`: a call for a local message, or a list or map
      of them, a clone or an assignment for everything else; None where they panic. */
  method EmitField(d: Descriptors, pkg: string, spoke: Message, hub: Message, toHub: bool, j: nat, a: nat)
    returns (e: Option<Assignment>)
    requires j < |spoke.fields| && a < |hub.fields| && !spoke.fields[j].ignored
    ensures e.Some? <==> FieldFits(d, pkg, spoke, hub, toHub, j, a)
    ensures e.Some? ==> e.value == Assignment(j, a, Dependency(d, pkg, spoke.fields[j]))
  {
    hide PlainFits, MemberFits;
    var f := spoke.fields[j];
    var ok;
    if f.oneof.None? {
      ok := CheckPlain(d, pkg, spoke.renameTo, f, hub.fields[a], toHub);
    } else {
      ok := CheckMember(d, pkg, f, hub.fields[a]);
    }
    if !ok { return None; }
    var call := None;
    if f.elem.MessageOf? && f.elem.target in d.messages && d.messages[f.elem.target].pkg == pkg {
      call := Some(f.elem.target);
    }
    e := Some(Assignment(j, a, call));
  }

  predicate NamesHub(hub: Message, byName: map<string, nat>) {
    && (forall n :: n in byName ==> byName[n] < |hub.fields| && hub.fields[byName[n]].name == n)
    && (forall a :: 0 <= a < |hub.fields| ==> hub.fields[a].name in byName && byName[hub.fields[a].name] == a)
  }

  /** The hub fields by name. */
  method MapHub(hub: Message) returns (byName: map<string, nat>)
    requires hub.Sound()
    ensures NamesHub(hub, byName)
  {
    byName := map[];
    for k := 0 to |hub.fields|
      invariant forall n :: n in byName ==> byName[n] < k && hub.fields[byName[n]].name == n
      invariant forall a :: 0 <= a < k ==> hub.fields[a].name in byName && byName[hub.fields[a].name] == a
    {
      byName := byName[hub.fields[k].name := k];
    }
  }

  /** The assignments of a group that read a field before k, in order. */
  ghost predicate Upto(d: Descriptors, pkg: string, spoke: Message, hub: Message, toHub: bool, group: Option<string>,
                       es: seq<Assignment>, k: nat)
  {
    && (forall e :: e in es <==> Belongs(d, pkg, spoke, hub, toHub, group, e) && Source(e, toHub) < k)
    && (forall x, y :: 0 <= x < y < |es| ==> Source(es[x], toHub) < Source(es[y], toHub))
    && forall e :: e in es ==> FieldFits(d, pkg, spoke, hub, toHub, e.spoke, e.hub)
  }

  lemma NothingYet(d: Descriptors, pkg: string, spoke: Message, hub: Message, toHub: bool, group: Option<string>)
    ensures Upto(d, pkg, spoke, hub, toHub, group, [], 0)
  {
  }

  /** Field k is not read in this group. */
  lemma SkipOne(d: Descriptors, pkg: string, spoke: Message, hub: Message, toHub: bool, group: Option<string>,
                es: seq<Assignment>, k: nat)
    requires Upto(d, pkg, spoke, hub, toHub, group, es, k)
    requires forall e :: Belongs(d, pkg, spoke, hub, toHub, group, e) ==> Source(e, toHub) != k
    ensures Upto(d, pkg, spoke, hub, toHub, group, es, k + 1)
  {
    hide Belongs, FieldFits;
  }

  /** Field k is read by this one assignment. */
  lemma TakeOne(d: Descriptors, pkg: string, spoke: Message, hub: Message, toHub: bool, group: Option<string>,
                es: seq<Assignment>, e: Assignment, k: nat)
    requires Upto(d, pkg, spoke, hub, toHub, group, es, k) && Source(e, toHub) == k
    requires forall e' :: Belongs(d, pkg, spoke, hub, toHub, group, e') && Source(e', toHub) == k <==> e' == e
    requires e.spoke < |spoke.fields| && e.hub < |hub.fields| && FieldFits(d, pkg, spoke, hub, toHub, e.spoke, e.hub)
    ensures Upto(d, pkg, spoke, hub, toHub, group, es + [e], k + 1)
  {
    hide Belongs, FieldFits;
    forall x, y | 0 <= x < y < |es + [e]| ensures Source((es + [e])[x], toHub) < Source((es + [e])[y], toHub) {
      if y == |es| { assert es[x] in es; }
    }
  }

  lemma Complete(d: Descriptors, pkg: string, spoke: Message, hub: Message, toHub: bool, group: Option<string>,
                 es: seq<Assignment>)
    requires Upto(d, pkg, spoke, hub, toHub, group, es, if toHub then |spoke.fields| else |hub.fields|)
    ensures AllOf(d, pkg, spoke, hub, toHub, group, es) && TypesFit(d, pkg, spoke, hub, toHub, group)
  {
    hide FieldFits, LastOfTarget, TargetName, Dependency;
    forall j: nat, a: nat | Assigned(spoke, hub, toHub, j, a) && spoke.fields[j].oneof == group
      ensures FieldFits(d, pkg, spoke, hub, toHub, j, a)
    {
      var e := Assignment(j, a, Dependency(d, pkg, spoke.fields[j]));
      assert Belongs(d, pkg, spoke, hub, toHub, group, e);
      assert e in es;
    }
  }

  /** Reading spoke field k, the only hub field it can go to is the one of its target name. */
  lemma OnlyTarget(d: Descriptors, pkg: string, spoke: Message, hub: Message, byName: map<string, nat>,
                   group: Option<string>, k: nat, e: Assignment)
    requires NamesHub(hub, byName) && k < |spoke.fields| && !spoke.fields[k].ignored && spoke.fields[k].oneof == group
    requires TargetName(spoke.fields[k]) in byName
    requires e == Assignment(k, byName[TargetName(spoke.fields[k])], Dependency(d, pkg, spoke.fields[k]))
    ensures forall e' :: Belongs(d, pkg, spoke, hub, true, group, e') && Source(e', true) == k <==> e' == e
  {
    hide TargetName, Dependency;
  }

  /** The fields outside oneofs, from the spoke to the hub. */
  method EmitPlain(d: Descriptors, pkg: string, spoke: Message, hub: Message, byName: map<string, nat>)
    returns (out: Option<seq<Assignment>>)
    requires NamesHub(hub, byName)
    ensures out.Some? <==> TypesFit(d, pkg, spoke, hub, true, None)
    ensures out.Some? ==> AllOf(d, pkg, spoke, hub, true, None, out.value)
  {
    hide Dependency, TargetName, FieldFits, Upto, AllOf;
    var es: seq<Assignment> := [];
    NothingYet(d, pkg, spoke, hub, true, None);
    for k := 0 to |spoke.fields|
      invariant Upto(d, pkg, spoke, hub, true, None, es, k)
    {
      var f := spoke.fields[k];
      if !f.ignored && f.oneof.None? && TargetName(f) in byName {
        var a := byName[TargetName(f)];
        var e := EmitField(d, pkg, spoke, hub, true, k, a);
        assert Assigned(spoke, hub, true, k, a);
        if e.None? { return None; }
        OnlyTarget(d, pkg, spoke, hub, byName, None, k, e.value);
        TakeOne(d, pkg, spoke, hub, true, None, es, e.value, k);
        es := es + [e.value];
      } else {
        SkipOne(d, pkg, spoke, hub, true, None, es, k);
      }
    }
    Complete(d, pkg, spoke, hub, true, None, es);
    out := Some(es);
  }

  // ---- Oneofs ----

  /** The pairs of the oneof, each once, in the order of the spoke fields. */
  ghost predicate AllPairs(spoke: Message, hub: Message, oo: string, pairs: seq<(nat, nat)>) {
    && (forall p :: p in pairs <==> InGroup(spoke, hub, oo, p.0, p.1))
    && (forall x, y :: 0 <= x < y < |pairs| ==> pairs[x].0 < pairs[y].0)
  }

  /** The mapped members of one oneof in order, or nothing where the generator panics: a member maps to a hub
      field outside oneofs, or two members map to different hub oneofs. */
  method PairGroup(spoke: Message, hub: Message, byName: map<string, nat>, oo: string)
    returns (pairs: Option<seq<(nat, nat)>>)
    requires NamesHub(hub, byName)
    ensures pairs.Some? <==> GroupFits(spoke, hub, oo)
    ensures pairs.Some? ==> AllPairs(spoke, hub, oo, pairs.value)
  {
    hide TargetName;
    var found: seq<(nat, nat)> := [];
    var hubOneof: Option<string> := None;
    for j := 0 to |spoke.fields|
      invariant forall p :: p in found <==> InGroup(spoke, hub, oo, p.0, p.1) && p.0 < j
      invariant forall x, y :: 0 <= x < y < |found| ==> found[x].0 < found[y].0
      invariant hubOneof.Some? <==> found != []
      invariant forall p :: p in found ==> hub.fields[p.1].oneof == hubOneof
    {
      var f := spoke.fields[j];
      if f.oneof == Some(oo) && !f.ignored && TargetName(f) in byName {
        var a := byName[TargetName(f)];
        assert InGroup(spoke, hub, oo, j, a);
        if hub.fields[a].oneof.None? { return None; }
        if hubOneof.None? {
          hubOneof := hub.fields[a].oneof;
        } else if hubOneof != hub.fields[a].oneof {
          assert found[0] in found;
          return None;
        }
        found := found + [(j, a)];
      }
    }
    AllOfOneOneof(spoke, hub, oo, found, hubOneof);
    pairs := Some(found);
  }

  lemma AllOfOneOneof(spoke: Message, hub: Message, oo: string, pairs: seq<(nat, nat)>, o: Option<string>)
    requires forall p :: p in pairs <==> InGroup(spoke, hub, oo, p.0, p.1) && p.0 < |spoke.fields|
    requires pairs != [] ==> o.Some?
    requires forall p :: p in pairs ==> p.1 < |hub.fields| && hub.fields[p.1].oneof == o
    ensures GroupFits(spoke, hub, oo)
  {
    forall j: nat, a: nat | InGroup(spoke, hub, oo, j, a)
      ensures hub.fields[a].oneof.Some? && hub.fields[a].oneof == o
    {
      assert (j, a) in pairs;
    }
  }

  lemma NoMembers(spoke: Message, hub: Message, oo: string)
    requires AllPairs(spoke, hub, oo, [])
    ensures !HasMembers(spoke, hub, oo)
  {
    forall j: nat, a: nat ensures !InGroup(spoke, hub, oo, j, a) {
      assert (j, a) !in [];
    }
  }

  lemma FittingMembers(spoke: Message, hub: Message, oo: string, j: nat, a: nat)
    requires GroupFits(spoke, hub, oo) && InGroup(spoke, hub, oo, j, a)
    ensures hub.fields[a].oneof.Some?
    ensures forall k: nat, b: nat :: InGroup(spoke, hub, oo, k, b) ==> hub.fields[b].oneof == hub.fields[a].oneof
  {
    hide InGroup;
    assert InGroup(spoke, hub, oo, j, a) && InGroup(spoke, hub, oo, j, a);
  }

  /** What one oneof contributes: a switch if it has mapped members, else nothing. */
  ghost predicate IsGroup(d: Descriptors, pkg: string, spoke: Message, hub: Message, toHub: bool, oo: string,
                          sws: seq<Switch>)
  {
    if HasMembers(spoke, hub, oo) then |sws| == 1 && IsSwitch(d, pkg, spoke, hub, toHub, oo, sws[0]) else sws == []
  }

  /** One case for each mapped member. */
  method EmitGroupForward(d: Descriptors, pkg: string, spoke: Message, hub: Message, byName: map<string, nat>,
                          oo: string)
    returns (out: Option<seq<Switch>>)
    requires NamesHub(hub, byName)
    ensures out.Some? <==> GroupFits(spoke, hub, oo) && TypesFit(d, pkg, spoke, hub, true, Some(oo))
    ensures out.Some? ==> IsGroup(d, pkg, spoke, hub, true, oo, out.value)
  {
    hide TargetName, Dependency, GroupFits, NamesHub, FieldFits;
    var pairs := PairGroup(spoke, hub, byName, oo);
    if pairs.None? { return None; }
    var ps := pairs.value;
    if ps == [] {
      NoMembers(spoke, hub, oo);
      NothingToFit(d, pkg, spoke, hub, true, oo);
      return Some([]);
    }
    assert ps[0] in ps;
    FittingMembers(spoke, hub, oo, ps[0].0, ps[0].1);
    var cases: seq<Assignment> := [];
    for i := 0 to |ps|
      invariant |cases| == i && forall x :: 0 <= x < i ==>
        && InGroup(spoke, hub, oo, ps[x].0, ps[x].1) && FieldFits(d, pkg, spoke, hub, true, ps[x].0, ps[x].1)
        && cases[x] == Assignment(ps[x].0, ps[x].1, Dependency(d, pkg, spoke.fields[ps[x].0]))
    {
      assert ps[i] in ps;
      var e := EmitField(d, pkg, spoke, hub, true, ps[i].0, ps[i].1);
      if e.None? {
        assert Assigned(spoke, hub, true, ps[i].0, ps[i].1);
        return None;
      }
      cases := cases + [e.value];
    }
    CasesOfPairs(d, pkg, spoke, hub, oo, ps, cases);
    out := Some([Switch(oo, hub.fields[ps[0].1].oneof.value, cases)]);
  }

  lemma NothingToFit(d: Descriptors, pkg: string, spoke: Message, hub: Message, toHub: bool, oo: string)
    requires !HasMembers(spoke, hub, oo)
    ensures TypesFit(d, pkg, spoke, hub, toHub, Some(oo))
  {
    hide FieldFits, TargetName, LastOfTarget;
    forall j: nat, a: nat | Assigned(spoke, hub, toHub, j, a) ensures spoke.fields[j].oneof != Some(oo) {
      assert !InGroup(spoke, hub, oo, j, a);
    }
  }

  lemma CasesOfPairs(d: Descriptors, pkg: string, spoke: Message, hub: Message, oo: string, ps: seq<(nat, nat)>,
                     cases: seq<Assignment>)
    requires AllPairs(spoke, hub, oo, ps) && |cases| == |ps|
    requires forall x :: 0 <= x < |ps| ==>
        && InGroup(spoke, hub, oo, ps[x].0, ps[x].1) && FieldFits(d, pkg, spoke, hub, true, ps[x].0, ps[x].1)
        && cases[x] == Assignment(ps[x].0, ps[x].1, Dependency(d, pkg, spoke.fields[ps[x].0]))
    ensures AllOf(d, pkg, spoke, hub, true, Some(oo), cases) && TypesFit(d, pkg, spoke, hub, true, Some(oo))
    ensures forall e :: e in cases ==> InGroup(spoke, hub, oo, e.spoke, e.hub)
  {
    hide TargetName, Dependency, FieldFits;
    forall e | Belongs(d, pkg, spoke, hub, true, Some(oo), e) ensures e in cases {
      assert (e.spoke, e.hub) in ps;
      var x :| 0 <= x < |ps| && ps[x] == (e.spoke, e.hub);
      assert cases[x] == e;
    }
    forall j: nat, a: nat | Assigned(spoke, hub, true, j, a) && spoke.fields[j].oneof == Some(oo)
      ensures FieldFits(d, pkg, spoke, hub, true, j, a)
    {
      assert (j, a) in ps;
      var x :| 0 <= x < |ps| && ps[x] == (j, a);
    }
  }

  /** `hubToPair`: a later pair replaces an earlier one of the same hub field. */
  method LastPairs(spoke: Message, hub: Message, oo: string, ps: seq<(nat, nat)>) returns (hubToPair: map<nat, nat>)
    requires AllPairs(spoke, hub, oo, ps)
    ensures forall a :: a in hubToPair ==>
      InGroup(spoke, hub, oo, hubToPair[a], a) && LastOfTarget(spoke, hubToPair[a])
    ensures forall j: nat, a: nat :: InGroup(spoke, hub, oo, j, a) ==>
      a in hubToPair && (LastOfTarget(spoke, j) ==> hubToPair[a] == j)
  {
    hide TargetName;
    hubToPair := map[];
    for i := 0 to |ps|
      invariant forall a :: a in hubToPair ==> (hubToPair[a], a) in ps[..i]
      invariant forall x :: 0 <= x < i ==> ps[x].1 in hubToPair && hubToPair[ps[x].1] >= ps[x].0
    {
      assert ps[..i + 1] == ps[..i] + [ps[i]];
      hubToPair := hubToPair[ps[i].1 := ps[i].0];
    }
    assert ps[..|ps|] == ps;
    LastPairsAre(spoke, hub, oo, ps, hubToPair);
  }

  lemma LastPairsAre(spoke: Message, hub: Message, oo: string, ps: seq<(nat, nat)>, last: map<nat, nat>)
    requires AllPairs(spoke, hub, oo, ps)
    requires forall a :: a in last ==> (last[a], a) in ps
    requires forall x :: 0 <= x < |ps| ==> ps[x].1 in last && last[ps[x].1] >= ps[x].0
    ensures forall a :: a in last ==> InGroup(spoke, hub, oo, last[a], a) && LastOfTarget(spoke, last[a])
    ensures forall j: nat, a: nat :: InGroup(spoke, hub, oo, j, a) ==>
      a in last && (LastOfTarget(spoke, j) ==> last[a] == j)
  {
    hide TargetName;
    forall j: nat, a: nat | InGroup(spoke, hub, oo, j, a)
      ensures a in last && last[a] >= j && InGroup(spoke, hub, oo, last[a], a)
    {
      assert (j, a) in ps;
    }
    forall a | a in last ensures InGroup(spoke, hub, oo, last[a], a) && LastOfTarget(spoke, last[a]) {
      var j := last[a];
      forall k | j < k < |spoke.fields| && spoke.fields[k].oneof == spoke.fields[j].oneof && !spoke.fields[k].ignored
        ensures TargetName(spoke.fields[k]) != TargetName(spoke.fields[j])
      {
        assert !InGroup(spoke, hub, oo, k, a);
      }
    }
  }

  /** One case for each hub member, from the last spoke member that is mapped to it. */
  method EmitGroupReverse(d: Descriptors, pkg: string, spoke: Message, hub: Message, byName: map<string, nat>,
                          oo: string)
    returns (out: Option<seq<Switch>>)
    requires NamesHub(hub, byName)
    ensures out.Some? <==> GroupFits(spoke, hub, oo) && TypesFit(d, pkg, spoke, hub, false, Some(oo))
    ensures out.Some? ==> IsGroup(d, pkg, spoke, hub, false, oo, out.value)
  {
    hide TargetName, Dependency, NamesHub, GroupFits, LastOfTarget, FieldFits, Upto;
    var pairs := PairGroup(spoke, hub, byName, oo);
    if pairs.None? { return None; }
    var ps := pairs.value;
    if ps == [] {
      NoMembers(spoke, hub, oo);
      NothingToFit(d, pkg, spoke, hub, false, oo);
      return Some([]);
    }
    var hubToPair := LastPairs(spoke, hub, oo, ps);
    assert ps[0] in ps;
    FittingMembers(spoke, hub, oo, ps[0].0, ps[0].1);
    var hubOneof := hub.fields[ps[0].1].oneof;
    var cases: seq<Assignment> := [];
    NothingYet(d, pkg, spoke, hub, false, Some(oo));
    for a := 0 to |hub.fields|
      invariant Upto(d, pkg, spoke, hub, false, Some(oo), cases, a)
    {
      BackFromMembers(d, pkg, spoke, hub, oo, hubToPair, a);
      if hub.fields[a].oneof == hubOneof && a in hubToPair {
        var e := EmitField(d, pkg, spoke, hub, false, hubToPair[a], a);
        assert Assigned(spoke, hub, false, hubToPair[a], a);
        if e.None? { return None; }
        TakeOne(d, pkg, spoke, hub, false, Some(oo), cases, e.value, a);
        cases := cases + [e.value];
      } else {
        SkipOne(d, pkg, spoke, hub, false, Some(oo), cases, a);
      }
    }
    Complete(d, pkg, spoke, hub, false, Some(oo), cases);
    ghost var a0 := ps[0].1;
    BackFromMembers(d, pkg, spoke, hub, oo, hubToPair, a0);
    assert Assignment(hubToPair[a0], a0, Dependency(d, pkg, spoke.fields[hubToPair[a0]])) in cases;
    out := Some([Switch(hubOneof.value, oo, cases)]);
  }

  /** Reading hub field a for a oneof whose members all go to oneofs. */
  lemma BackFromMembers(d: Descriptors, pkg: string, spoke: Message, hub: Message, oo: string, last: map<nat, nat>,
                        a: nat)
    requires forall b :: b in last ==>
      last[b] < |spoke.fields| && InGroup(spoke, hub, oo, last[b], b) && LastOfTarget(spoke, last[b])
    requires forall j: nat, b: nat :: InGroup(spoke, hub, oo, j, b) ==>
      hub.fields[b].oneof.Some? && b in last && (LastOfTarget(spoke, j) ==> last[b] == j)
    ensures forall e :: Belongs(d, pkg, spoke, hub, false, Some(oo), e) && Source(e, false) == a <==>
      a in last && last[a] < |spoke.fields| && e == Assignment(last[a], a, Dependency(d, pkg, spoke.fields[last[a]]))
  {
    hide TargetName, Dependency, LastOfTarget;
    forall e | Belongs(d, pkg, spoke, hub, false, Some(oo), e) ensures InGroup(spoke, hub, oo, e.spoke, e.hub) {
    }
  }

  // ---- From the hub to the spoke, plain fields ----

  /** The last plain field for every target. */
  method ReverseMap(spoke: Message) returns (rev: map<string, nat>)
    ensures LastPlain(spoke, rev)
  {
    hide TargetName;
    rev := map[];
    for k := 0 to |spoke.fields|
      invariant forall n :: n in rev ==>
        && rev[n] < k && !spoke.fields[rev[n]].ignored && spoke.fields[rev[n]].oneof.None?
        && TargetName(spoke.fields[rev[n]]) == n
      invariant forall j :: 0 <= j < k && !spoke.fields[j].ignored && spoke.fields[j].oneof.None? ==>
        TargetName(spoke.fields[j]) in rev && j <= rev[TargetName(spoke.fields[j])]
    {
      if !spoke.fields[k].ignored && spoke.fields[k].oneof.None? {
        rev := rev[TargetName(spoke.fields[k]) := k];
      }
    }
  }

  predicate LastPlain(spoke: Message, rev: map<string, nat>) {
    && (forall n :: n in rev ==>
          && rev[n] < |spoke.fields| && !spoke.fields[rev[n]].ignored && spoke.fields[rev[n]].oneof.None?
          && TargetName(spoke.fields[rev[n]]) == n && LastOfTarget(spoke, rev[n]))
    && (forall j :: 0 <= j < |spoke.fields| && LastOfTarget(spoke, j) ==>
          !spoke.fields[j].ignored && spoke.fields[j].oneof.None? ==>
            TargetName(spoke.fields[j]) in rev && rev[TargetName(spoke.fields[j])] == j)
  }

  /** Reading hub field a for the plain fields. */
  lemma BackFromPlain(d: Descriptors, pkg: string, spoke: Message, hub: Message, rev: map<string, nat>, a: nat)
    requires LastPlain(spoke, rev) && a < |hub.fields|
    ensures var n := hub.fields[a].name;
      forall e :: Belongs(d, pkg, spoke, hub, false, None, e) && Source(e, false) == a <==>
        && hub.fields[a].oneof.None? && n in rev
        && e == Assignment(rev[n], a, Dependency(d, pkg, spoke.fields[rev[n]]))
  {
    hide TargetName, Dependency, LastOfTarget;
  }

  /** The hub fields outside oneofs, from the hub to the spoke. */
  method EmitPlainReverse(d: Descriptors, pkg: string, spoke: Message, hub: Message)
    returns (out: Option<seq<Assignment>>)
    ensures out.Some? <==> TypesFit(d, pkg, spoke, hub, false, None)
    ensures out.Some? ==> AllOf(d, pkg, spoke, hub, false, None, out.value)
  {
    hide Dependency, TargetName, LastOfTarget, FieldFits, Upto, AllOf;
    var rev := ReverseMap(spoke);
    var es: seq<Assignment> := [];
    NothingYet(d, pkg, spoke, hub, false, None);
    for a := 0 to |hub.fields|
      invariant Upto(d, pkg, spoke, hub, false, None, es, a)
    {
      BackFromPlain(d, pkg, spoke, hub, rev, a);
      if hub.fields[a].oneof.None? && hub.fields[a].name in rev {
        var e := EmitField(d, pkg, spoke, hub, false, rev[hub.fields[a].name], a);
        assert Assigned(spoke, hub, false, rev[hub.fields[a].name], a);
        if e.None? { return None; }
        TakeOne(d, pkg, spoke, hub, false, None, es, e.value, a);
        es := es + [e.value];
      } else {
        SkipOne(d, pkg, spoke, hub, false, None, es, a);
      }
    }
    Complete(d, pkg, spoke, hub, false, None, es);
    out := Some(es);
  }

  // ---- Whole bodies ----

  lemma OneMoreGroup(d: Descriptors, pkg: string, spoke: Message, hub: Message, toHub: bool, oneofs: seq<string>,
                     sws: seq<Switch>, oo: string, more: seq<Switch>)
    requires AreSwitches(d, pkg, spoke, hub, toHub, oneofs, sws) && IsGroup(d, pkg, spoke, hub, toHub, oo, more)
    ensures AreSwitches(d, pkg, spoke, hub, toHub, oneofs + [oo], sws + more)
  {
    hide IsSwitch, HasMembers;
    assert (oneofs + [oo])[..|oneofs|] == oneofs;
    if more == [] {
      assert sws + more == sws;
    } else {
      assert (sws + more)[..|sws|] == sws;
    }
  }

  /** The generator panics for a hub field that is neither mapped nor ignored. */
  method CheckCovered(spoke: Message, hub: Message, ignore: set<string>, mapped: set<nat>) returns (covered: bool)
    requires forall a: nat :: a in mapped <==> exists j :: Pairs(spoke, hub, j, a)
    ensures covered <==> Covered(spoke, hub, ignore)
  {
    hide Pairs;
    for a := 0 to |hub.fields|
      invariant forall b: nat :: b < a ==> hub.fields[b].name in ignore || exists j :: Pairs(spoke, hub, j, b)
    {
      if a !in mapped && hub.fields[a].name !in ignore { return false; }
    }
    covered := true;
  }

  /** The hub fields that an assignment or a case goes to. */
  function Reached(code: Code): set<nat> {
    (set e | e in code.plain :: e.hub) + (set sw, e | sw in code.switches && e in sw.cases :: e.hub)
  }

  /** `generateAssignmentsSpokeToHub`: plain fields, then the oneofs, then the check that no hub field is
      forgotten. Nothing is emitted where the generator panics. */
  method EmitSpokeToHub(d: Descriptors, pkg: string, spoke: Message, hub: Message, ignore: set<string>)
    returns (out: Option<Code>)
    requires spoke.Sound() && hub.Sound()
    ensures out.Some? <==> Accepts(d, pkg, spoke, hub, true) && Covered(spoke, hub, ignore)
    ensures out.Some? ==> IsCode(d, pkg, spoke, hub, true, out.value)
  {
    hide GroupFits, TypesFit, AllOf, IsGroup, AreSwitches, Covered;
    var byName := MapHub(hub);
    hide NamesHub;
    var plain := EmitPlain(d, pkg, spoke, hub, byName);
    if plain.None? { return None; }
    var sws: seq<Switch> := [];
    NoSwitches(d, pkg, spoke, hub, true);
    for i := 0 to |spoke.oneofs|
      invariant forall k :: 0 <= k < i ==>
        GroupFits(spoke, hub, spoke.oneofs[k]) && TypesFit(d, pkg, spoke, hub, true, Some(spoke.oneofs[k]))
      invariant AreSwitches(d, pkg, spoke, hub, true, spoke.oneofs[..i], sws)
    {
      var more := EmitGroupForward(d, pkg, spoke, hub, byName, spoke.oneofs[i]);
      if more.None? { return None; }
      OneMoreGroup(d, pkg, spoke, hub, true, spoke.oneofs[..i], sws, spoke.oneofs[i], more.value);
      assert spoke.oneofs[..i + 1] == spoke.oneofs[..i] + [spoke.oneofs[i]];
      sws := sws + more.value;
    }
    assert spoke.oneofs[..|spoke.oneofs|] == spoke.oneofs;
    var code := Code(plain.value, sws);
    ForwardReaches(d, pkg, spoke, hub, code);
    var covered := CheckCovered(spoke, hub, ignore, Reached(code));
    out := if covered then Some(code) else None;
  }

  lemma NoSwitches(d: Descriptors, pkg: string, spoke: Message, hub: Message, toHub: bool)
    ensures AreSwitches(d, pkg, spoke, hub, toHub, spoke.oneofs[..0], [])
  {
  }

  /** Every switch is that of some oneof, and every oneof with mapped members has its switch. */
  lemma {:induction false} SwitchesAre(d: Descriptors, pkg: string, spoke: Message, hub: Message, toHub: bool,
                                       oneofs: seq<string>, sws: seq<Switch>)
    requires AreSwitches(d, pkg, spoke, hub, toHub, oneofs, sws)
    ensures forall sw :: sw in sws ==> exists oo :: oo in oneofs && IsSwitch(d, pkg, spoke, hub, toHub, oo, sw)
    ensures forall oo :: oo in oneofs && HasMembers(spoke, hub, oo) ==>
      exists sw :: sw in sws && IsSwitch(d, pkg, spoke, hub, toHub, oo, sw)
    decreases |oneofs|
  {
    hide IsSwitch, HasMembers;
    if oneofs != [] {
      var oo, rest := oneofs[|oneofs| - 1], oneofs[..|oneofs| - 1];
      assert oneofs == rest + [oo];
      if HasMembers(spoke, hub, oo) {
        var last := sws[|sws| - 1];
        assert sws == sws[..|sws| - 1] + [last];
        SwitchesAre(d, pkg, spoke, hub, toHub, rest, sws[..|sws| - 1]);
        assert last in sws && oo in oneofs;
      } else {
        SwitchesAre(d, pkg, spoke, hub, toHub, rest, sws);
      }
    }
  }

  /** All assignments of a body, in plain code or in a case. */
  function Assignments(code: Code): set<Assignment> {
    (set e | e in code.plain) + (set sw, e | sw in code.switches && e in sw.cases :: e)
  }

  /** An assignment of that direction, whatever its group. */
  predicate IsAssignment(d: Descriptors, pkg: string, spoke: Message, hub: Message, toHub: bool, e: Assignment) {
    Assigned(spoke, hub, toHub, e.spoke, e.hub) && e.call == Dependency(d, pkg, spoke.fields[e.spoke])
  }

  /** The body assigns exactly the pairs of its direction. */
  lemma BodyAssigns(d: Descriptors, pkg: string, spoke: Message, hub: Message, toHub: bool, code: Code)
    requires spoke.Sound() && IsCode(d, pkg, spoke, hub, toHub, code)
    ensures forall e :: e in Assignments(code) <==> IsAssignment(d, pkg, spoke, hub, toHub, e)
  {
    hide AreSwitches, LastOfTarget, Dependency, TargetName;
    SwitchesAre(d, pkg, spoke, hub, toHub, spoke.oneofs, code.switches);
    forall e | IsAssignment(d, pkg, spoke, hub, toHub, e) ensures e in Assignments(code) {
      var f := spoke.fields[e.spoke];
      assert Belongs(d, pkg, spoke, hub, toHub, f.oneof, e);
      if f.oneof.Some? {
        assert InGroup(spoke, hub, f.oneof.value, e.spoke, e.hub);
        assert HasMembers(spoke, hub, f.oneof.value);
        var sw :| sw in code.switches && IsSwitch(d, pkg, spoke, hub, toHub, f.oneof.value, sw);
        assert e in sw.cases;
      }
    }
    forall e | e in Assignments(code) ensures IsAssignment(d, pkg, spoke, hub, toHub, e) {
      if e !in code.plain {
        var sw :| sw in code.switches && e in sw.cases;
        var oo :| oo in spoke.oneofs && IsSwitch(d, pkg, spoke, hub, toHub, oo, sw);
        assert Belongs(d, pkg, spoke, hub, toHub, Some(oo), e);
      } else {
        assert Belongs(d, pkg, spoke, hub, toHub, None, e);
      }
    }
  }

  /** Hub field a has the name that spoke field j asks for. */
  predicate BelongTogether(spoke: Message, hub: Message, j: nat, a: nat) {
    && j < |spoke.fields| && a < |hub.fields| && !spoke.fields[j].ignored
    && (spoke.fields[j].renameTo != "" ==> hub.fields[a].name == spoke.fields[j].renameTo)
    && (spoke.fields[j].renameTo == "" ==> hub.fields[a].name == spoke.fields[j].name)
  }

  /** A spoke field goes to the hub field of its own name, or of its field_rename_to if it has one, and to no other;
      and on the way to the hub every field that is not ignored does, if that hub field exists. */
  lemma GoesWhereNamed(d: Descriptors, pkg: string, spoke: Message, hub: Message, toHub: bool, code: Code)
    requires spoke.Sound() && IsCode(d, pkg, spoke, hub, toHub, code)
    ensures forall e :: e in Assignments(code) ==> BelongTogether(spoke, hub, e.spoke, e.hub)
    ensures toHub ==> forall j: nat, a: nat :: BelongTogether(spoke, hub, j, a) ==>
      Assignment(j, a, Dependency(d, pkg, spoke.fields[j])) in Assignments(code)
  {
    hide IsCode, Assignments, Dependency, LastOfTarget;
    BodyAssigns(d, pkg, spoke, hub, toHub, code);
    forall e | e in Assignments(code) ensures Pairs(spoke, hub, e.spoke, e.hub) {
      assert IsAssignment(d, pkg, spoke, hub, toHub, e);
    }
    if toHub {
      forall j: nat, a: nat | Pairs(spoke, hub, j, a)
        ensures Assignment(j, a, Dependency(d, pkg, spoke.fields[j])) in Assignments(code)
      {
        assert IsAssignment(d, pkg, spoke, hub, true, Assignment(j, a, Dependency(d, pkg, spoke.fields[j])));
      }
    }
  }

  lemma ForwardReaches(d: Descriptors, pkg: string, spoke: Message, hub: Message, code: Code)
    requires spoke.Sound() && IsCode(d, pkg, spoke, hub, true, code)
    ensures forall a: nat :: a in Reached(code) <==> exists j :: Pairs(spoke, hub, j, a)
  {
    hide IsCode, Dependency, TargetName;
    BodyAssigns(d, pkg, spoke, hub, true, code);
    forall a: nat ensures a in Reached(code) <==> exists j :: Pairs(spoke, hub, j, a) {
      if a in Reached(code) {
        var e :| e in Assignments(code) && e.hub == a;
        assert IsAssignment(d, pkg, spoke, hub, true, e);
      }
      if j: nat :| Pairs(spoke, hub, j, a) {
        var e := Assignment(j, a, Dependency(d, pkg, spoke.fields[j]));
        assert IsAssignment(d, pkg, spoke, hub, true, e);
        assert e in Assignments(code);
      }
    }
  }

  /** `generateAssignmentsHubToSpoke`: plain hub fields through the reverse map, then the oneofs. */
  method EmitHubToSpoke(d: Descriptors, pkg: string, spoke: Message, hub: Message) returns (out: Option<Code>)
    requires spoke.Sound() && hub.Sound()
    ensures out.Some? <==> Accepts(d, pkg, spoke, hub, false)
    ensures out.Some? ==> IsCode(d, pkg, spoke, hub, false, out.value)
  {
    hide GroupFits, TypesFit, AllOf, IsGroup, AreSwitches;
    var byName := MapHub(hub);
    hide NamesHub;
    var plain := EmitPlainReverse(d, pkg, spoke, hub);
    if plain.None? { return None; }
    var sws: seq<Switch> := [];
    NoSwitches(d, pkg, spoke, hub, false);
    for i := 0 to |spoke.oneofs|
      invariant forall k :: 0 <= k < i ==>
        GroupFits(spoke, hub, spoke.oneofs[k]) && TypesFit(d, pkg, spoke, hub, false, Some(spoke.oneofs[k]))
      invariant AreSwitches(d, pkg, spoke, hub, false, spoke.oneofs[..i], sws)
    {
      var more := EmitGroupReverse(d, pkg, spoke, hub, byName, spoke.oneofs[i]);
      if more.None? { return None; }
      OneMoreGroup(d, pkg, spoke, hub, false, spoke.oneofs[..i], sws, spoke.oneofs[i], more.value);
      assert spoke.oneofs[..i + 1] == spoke.oneofs[..i] + [spoke.oneofs[i]];
      sws := sws + more.value;
    }
    assert spoke.oneofs[..|spoke.oneofs|] == spoke.oneofs;
    out := Some(Code(plain.value, sws));
  }
}
