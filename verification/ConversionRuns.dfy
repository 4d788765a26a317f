/** What the generated Convert functions do to values, and when converting to the hub and back loses
    nothing. */
module ConversionRuns {
  import opened Wrappers
  import opened ConversionTargets
  import opened ConversionFits
  import opened ConversionCalls

  // ---- Records ----

  /** What a field holds: nothing, which is also its zero value, or some content. */
  datatype Value = Nil | Data(content: int)

  datatype Case = Case(field: nat, value: Value)

  /** A Go struct: fields outside oneofs by number, unset ones Nil; for every set oneof its case. */
  datatype Record = Record(plain: map<nat, Value>, active: map<string, Case>)

  const NEW := Record(map[], map[])

  function Plain(r: Record, k: nat): Value {
    if k in r.plain then r.plain[k] else Nil
  }

  // ---- Running the code ----

  /** What an assignment of spoke field j does to content: a copy, a cast, a clone, or the Convert function of
      the field's type. */
  type Conversion = (nat, int) -> int

  function Apply(conv: Conversion, j: nat, v: Value): Value {
    if v.Nil? then Nil else Data(conv(j, v.content))
  }

  /** The plain assignments in order. One to a member of a hub oneof, for which Go has no such field, goes where
      nothing reads. */
  function RunPlain(conv: Conversion, toHub: bool, es: seq<Assignment>, from: Record, to: Record): Record
    decreases |es|
  {
    if es == [] then to else
    var e := es[|es| - 1];
    var r := RunPlain(conv, toHub, es[..|es| - 1], from, to);
    r.(plain := r.plain[Source(e, !toHub) := Apply(conv, e.spoke, Plain(from, Source(e, toHub)))])
  }

  function CaseFor(cases: seq<Assignment>, toHub: bool, field: nat): Option<Assignment> {
    if cases == [] then None
    else if Source(cases[0], toHub) == field then Some(cases[0])
    else CaseFor(cases[1..], toHub, field)
  }

  /** A member that is a message to convert is dropped when it is nil. */
  predicate Dropped(e: Assignment, v: Value) {
    e.call.Some? && v.Nil?
  }

  /** The case of the switch that has an effect. */
  function Fired(toHub: bool, sw: Switch, from: Record): Option<Assignment> {
    if sw.from !in from.active then None else
    var e := CaseFor(sw.cases, toHub, from.active[sw.from].field);
    if e.Some? && Dropped(e.value, from.active[sw.from].value) then None else e
  }

  function CaseSet(conv: Conversion, toHub: bool, e: Assignment, v: Value): Case {
    Case(Source(e, !toHub), Apply(conv, e.spoke, v))
  }

  function RunSwitches(conv: Conversion, toHub: bool, sws: seq<Switch>, from: Record, to: Record): Record
    decreases |sws|
  {
    if sws == [] then to else
    var sw := sws[|sws| - 1];
    var r := RunSwitches(conv, toHub, sws[..|sws| - 1], from, to);
    var e := Fired(toHub, sw, from);
    if e.None? then r
    else r.(active := r.active[sw.to := CaseSet(conv, toHub, e.value, from.active[sw.from].value)])
  }

  /** A Convert function, into a new message. */
  function Convert(conv: Conversion, toHub: bool, code: Code, from: Record): Record {
    RunSwitches(conv, toHub, code.switches, from, RunPlain(conv, toHub, code.plain, from, NEW))
  }

  // ---- What the parts do ----

  lemma {:induction false} SwitchesKeepPlain(conv: Conversion, toHub: bool, sws: seq<Switch>, from: Record, to: Record)
    ensures RunSwitches(conv, toHub, sws, from, to).plain == to.plain
    decreases |sws|
  {
    hide Fired;
    if sws != [] {
      SwitchesKeepPlain(conv, toHub, sws[..|sws| - 1], from, to);
    }
  }

  lemma {:induction false} PlainKeepsActive(conv: Conversion, toHub: bool, es: seq<Assignment>, from: Record,
                                            to: Record)
    ensures RunPlain(conv, toHub, es, from, to).active == to.active
    decreases |es|
  {
    if es != [] {
      PlainKeepsActive(conv, toHub, es[..|es| - 1], from, to);
    }
  }

  predicate LastTo(toHub: bool, es: seq<Assignment>, x: nat, t: nat) {
    x < |es| && Source(es[x], !toHub) == t && forall y :: x < y < |es| ==> Source(es[y], !toHub) != t
  }

  predicate NoneTo(toHub: bool, es: seq<Assignment>, t: nat) {
    forall x :: 0 <= x < |es| ==> Source(es[x], !toHub) != t
  }

  /** A field without an assignment stays. */
  lemma {:induction false} PlainUntouched(conv: Conversion, toHub: bool, es: seq<Assignment>, from: Record, to: Record,
                                          t: nat)
    requires NoneTo(toHub, es, t)
    ensures Plain(RunPlain(conv, toHub, es, from, to), t) == Plain(to, t)
    decreases |es|
  {
    hide Apply;
    if es != [] {
      PlainUntouched(conv, toHub, es[..|es| - 1], from, to, t);
    }
  }

  /** The last assignment to a field decides. */
  lemma {:induction false} PlainAfter(conv: Conversion, toHub: bool, es: seq<Assignment>, from: Record, to: Record,
                                      x: nat, t: nat)
    requires LastTo(toHub, es, x, t)
    ensures Plain(RunPlain(conv, toHub, es, from, to), t)
         == Apply(conv, es[x].spoke, Plain(from, Source(es[x], toHub)))
    decreases |es|
  {
    hide Apply;
    if x < |es| - 1 {
      assert Source(es[|es| - 1], !toHub) != t;
      PlainAfter(conv, toHub, es[..|es| - 1], from, to, x, t);
    }
  }

  /** The case of an oneof afterwards: some switch has set it, if any that sets it had an effect. */
  ghost predicate SetBy(conv: Conversion, toHub: bool, sws: seq<Switch>, from: Record, sw: Switch, c: Case) {
    && sw in sws && Fired(toHub, sw, from).Some? && sw.from in from.active
    && c == CaseSet(conv, toHub, Fired(toHub, sw, from).value, from.active[sw.from].value)
  }

  lemma {:induction false} ActiveAfter(conv: Conversion, toHub: bool, sws: seq<Switch>, from: Record, to: Record,
                                       o: string)
    requires o !in to.active
    ensures var r := RunSwitches(conv, toHub, sws, from, to);
      && (o in r.active ==> exists sw: Switch :: sw.to == o && SetBy(conv, toHub, sws, from, sw, r.active[o]))
      && (forall sw :: sw in sws && sw.to == o && Fired(toHub, sw, from).Some? ==> o in r.active)
    decreases |sws|
  {
    if sws != [] {
      var sw, init := sws[|sws| - 1], sws[..|sws| - 1];
      ActiveAfter(conv, toHub, init, from, to, o);
      assert sws == init + [sw];
      hide CaseFor;
      var r := RunSwitches(conv, toHub, sws, from, to);
      if o in r.active {
        if sw.to == o && Fired(toHub, sw, from).Some? {
          assert SetBy(conv, toHub, sws, from, sw, r.active[o]);
        } else {
          var before: Switch :| before.to == o && SetBy(conv, toHub, init, from, before, r.active[o]);
          assert SetBy(conv, toHub, sws, from, before, r.active[o]);
        }
      }
    }
  }

  lemma {:induction false} CaseForIs(cases: seq<Assignment>, toHub: bool, f: nat, e: Assignment)
    requires forall x, y :: 0 <= x < y < |cases| ==> Source(cases[x], toHub) < Source(cases[y], toHub)
    ensures CaseFor(cases, toHub, f) == Some(e) <==> e in cases && Source(e, toHub) == f
    decreases |cases|
  {
    if cases != [] {
      CaseForIs(cases[1..], toHub, f, e);
      assert cases == [cases[0]] + cases[1..];
    }
  }

  // ---- One direction on one oneof ----

  /** An assignment of the oneof that has an effect on this case. */
  predicate Moves(d: Descriptors, pkg: string, spoke: Message, hub: Message, toHub: bool, oo: string, c: Case,
                  e: Assignment)
  {
    && Belongs(d, pkg, spoke, hub, toHub, Some(oo), e) && Source(e, toHub) == c.field && !Dropped(e, c.value)
  }

  lemma FiredIs(d: Descriptors, pkg: string, spoke: Message, hub: Message, toHub: bool, oo: string, sw: Switch,
                from: Record, e: Assignment)
    requires IsSwitch(d, pkg, spoke, hub, toHub, oo, sw)
    ensures Fired(toHub, sw, from) == Some(e)
       <==> sw.from in from.active && Moves(d, pkg, spoke, hub, toHub, oo, from.active[sw.from], e)
  {
    hide Belongs;
    if sw.from in from.active {
      CaseForIs(sw.cases, toHub, from.active[sw.from].field, e);
    }
  }

  /** No other spoke oneof has members mapped into the hub oneof ho. */
  ghost predicate OnlyFrom(spoke: Message, hub: Message, oo: string, ho: string) {
    forall k: nat, b: nat :: Pairs(spoke, hub, k, b) && spoke.fields[k].oneof.Some? && hub.fields[b].oneof == Some(ho)
      ==> spoke.fields[k].oneof == Some(oo)
  }

  /** The oneofs read and written for member j that is mapped to a. */
  function From(spoke: Message, hub: Message, toHub: bool, j: nat, a: nat): Option<string>
    requires j < |spoke.fields| && a < |hub.fields|
  {
    if toHub then spoke.fields[j].oneof else hub.fields[a].oneof
  }

  /** A switch that writes what j's group writes is j's group's own. */
  lemma SameGroup(d: Descriptors, pkg: string, spoke: Message, hub: Message, toHub: bool, code: Code, oo: string,
                  j: nat, a: nat, sw: Switch)
    requires spoke.Sound() && IsCode(d, pkg, spoke, hub, toHub, code) && GroupsFit(spoke, hub)
    requires InGroup(spoke, hub, oo, j, a) && hub.fields[a].oneof.Some?
    requires toHub ==> OnlyFrom(spoke, hub, oo, hub.fields[a].oneof.value)
    requires sw in code.switches && Some(sw.to) == From(spoke, hub, !toHub, j, a)
    ensures IsSwitch(d, pkg, spoke, hub, toHub, oo, sw) && Some(sw.from) == From(spoke, hub, toHub, j, a)
  {
    hide AllOf, AreSwitches, TargetName, LastOfTarget, Dependency;
    SwitchesAre(d, pkg, spoke, hub, toHub, spoke.oneofs, code.switches);
    var o :| o in spoke.oneofs && IsSwitch(d, pkg, spoke, hub, toHub, o, sw);
    var e := sw.cases[0];
    CaseBelongs(d, pkg, spoke, hub, toHub, o, sw, e);
    assert e in sw.cases;
    assert InGroup(spoke, hub, o, e.spoke, e.hub);
    assert spoke.oneofs != [] && GroupFits(spoke, hub, o);
    assert o == oo;
  }

  lemma CaseBelongs(d: Descriptors, pkg: string, spoke: Message, hub: Message, toHub: bool, oo: string, sw: Switch,
                    e: Assignment)
    requires IsSwitch(d, pkg, spoke, hub, toHub, oo, sw) && e in sw.cases
    ensures Belongs(d, pkg, spoke, hub, toHub, Some(oo), e) && Pairs(spoke, hub, e.spoke, e.hub)
  {
    hide TargetName, LastOfTarget, Dependency;
  }

  /** The case afterwards comes from the case before, by an assignment of the oneof; and it is set if there is
      such an assignment. */
  lemma OneofAfter(d: Descriptors, pkg: string, spoke: Message, hub: Message, toHub: bool, code: Code,
                   conv: Conversion, from: Record, oo: string, j: nat, a: nat)
    requires spoke.Sound() && IsCode(d, pkg, spoke, hub, toHub, code) && GroupsFit(spoke, hub)
    requires InGroup(spoke, hub, oo, j, a) && hub.fields[a].oneof.Some?
    requires toHub ==> OnlyFrom(spoke, hub, oo, hub.fields[a].oneof.value)
    ensures var r := Convert(conv, toHub, code, from);
      var src, dst := From(spoke, hub, toHub, j, a).value, From(spoke, hub, !toHub, j, a).value;
      && (dst in r.active ==> src in from.active && exists e ::
            && Moves(d, pkg, spoke, hub, toHub, oo, from.active[src], e)
            && r.active[dst] == CaseSet(conv, toHub, e, from.active[src].value))
      && (src in from.active && (exists e :: Moves(d, pkg, spoke, hub, toHub, oo, from.active[src], e)) ==>
            dst in r.active)
  {
    hide IsSwitch, AllOf, AreSwitches, TargetName, GroupsFit, OnlyFrom, Moves, Fired, RunPlain, RunSwitches;
    var src, dst := From(spoke, hub, toHub, j, a).value, From(spoke, hub, !toHub, j, a).value;
    var r := Convert(conv, toHub, code, from);
    PlainKeepsActive(conv, toHub, code.plain, from, NEW);
    ActiveAfter(conv, toHub, code.switches, from, RunPlain(conv, toHub, code.plain, from, NEW), dst);
    if dst in r.active {
      var sw: Switch :| sw.to == dst && SetBy(conv, toHub, code.switches, from, sw, r.active[dst]);
      SameGroup(d, pkg, spoke, hub, toHub, code, oo, j, a, sw);
      FiredIs(d, pkg, spoke, hub, toHub, oo, sw, from, Fired(toHub, sw, from).value);
    }
    if src in from.active && exists e :: Moves(d, pkg, spoke, hub, toHub, oo, from.active[src], e) {
      var e :| Moves(d, pkg, spoke, hub, toHub, oo, from.active[src], e);
      var sw := SwitchOf(d, pkg, spoke, hub, toHub, code, oo, j, a);
      FiredIs(d, pkg, spoke, hub, toHub, oo, sw, from, e);
    }
  }

  lemma SwitchOf(d: Descriptors, pkg: string, spoke: Message, hub: Message, toHub: bool, code: Code, oo: string,
                 j: nat, a: nat) returns (sw: Switch)
    requires spoke.Sound() && IsCode(d, pkg, spoke, hub, toHub, code) && GroupsFit(spoke, hub)
    requires InGroup(spoke, hub, oo, j, a) && hub.fields[a].oneof.Some?
    ensures sw in code.switches && IsSwitch(d, pkg, spoke, hub, toHub, oo, sw)
    ensures Some(sw.from) == From(spoke, hub, toHub, j, a) && Some(sw.to) == From(spoke, hub, !toHub, j, a)
  {
    hide AllOf, AreSwitches, TargetName, LastOfTarget, Dependency;
    SwitchesAre(d, pkg, spoke, hub, toHub, spoke.oneofs, code.switches);
    assert HasMembers(spoke, hub, oo);
    sw :| sw in code.switches && IsSwitch(d, pkg, spoke, hub, toHub, oo, sw);
    var e := sw.cases[0];
    CaseBelongs(d, pkg, spoke, hub, toHub, oo, sw, e);
    assert e in sw.cases;
    assert InGroup(spoke, hub, oo, e.spoke, e.hub);
    assert oo in spoke.oneofs && GroupFits(spoke, hub, oo);
  }

  // ---- There and back ----

  /** What spoke field j shows: the plain field's value, or the oneof's value if j is the case set. */
  function Shown(spoke: Message, r: Record, j: nat): Option<Value>
    requires j < |spoke.fields|
  {
    match spoke.fields[j].oneof
    case None => Some(Plain(r, j))
    case Some(oo) => if oo in r.active && r.active[oo].field == j then Some(r.active[oo].value) else None
  }

  /** A case is one of its oneof's members; with `nils` its value may be nil. */
  predicate Legal(spoke: Message, r: Record, nils: bool) {
    forall oo :: oo in r.active ==>
      && r.active[oo].field < |spoke.fields| && spoke.fields[r.active[oo].field].oneof == Some(oo)
      && (nils || r.active[oo].value.Data?)
  }

  function ThereAndBack(forth: Conversion, back: Conversion, fwd: Code, rev: Code, r: Record): Record {
    Convert(back, false, rev, Convert(forth, true, fwd, r))
  }

  /** Every mapped field shows what it showed. */
  ghost predicate Restores(spoke: Message, hub: Message, forth: Conversion, back: Conversion, fwd: Code, rev: Code,
                           r: Record)
  {
    forall j, a :: Pairs(spoke, hub, j, a) ==>
      Shown(spoke, ThereAndBack(forth, back, fwd, rev, r), j) == Shown(spoke, r, j)
  }

  /** A later field of the same target, plain or of the same oneof. */
  ghost predicate Overtaken(spoke: Message, hub: Message, j: nat, a: nat)
    requires j < |spoke.fields|
  {
    exists k: nat :: k > j && Pairs(spoke, hub, k, a) && spoke.fields[k].oneof == spoke.fields[j].oneof
  }

  /** Field j has its target to itself: no later field of its group overtakes it, it is not a plain field mapped
      into a hub oneof, and no other spoke oneof goes to its hub oneof. */
  ghost predicate Undisturbed(spoke: Message, hub: Message, j: nat, a: nat)
    requires j < |spoke.fields| && a < |hub.fields|
  {
    && !Overtaken(spoke, hub, j, a)
    && (spoke.fields[j].oneof.None? ==> hub.fields[a].oneof.None?)
    && (spoke.fields[j].oneof.Some? && hub.fields[a].oneof.Some? ==>
          OnlyFrom(spoke, hub, spoke.fields[j].oneof.value, hub.fields[a].oneof.value))
  }

  ghost predicate AllUndisturbed(spoke: Message, hub: Message) {
    forall j: nat, a: nat :: Pairs(spoke, hub, j, a) ==> Undisturbed(spoke, hub, j, a)
  }

  lemma MemberGoesToMember(spoke: Message, hub: Message, j: nat, a: nat)
    requires spoke.Sound() && GroupsFit(spoke, hub) && Pairs(spoke, hub, j, a)
    ensures spoke.fields[j].oneof.Some? ==> hub.fields[a].oneof.Some?
  {
    hide TargetName;
    if spoke.fields[j].oneof.Some? {
      var oo := spoke.fields[j].oneof.value;
      assert InGroup(spoke, hub, oo, j, a);
      assert oo in spoke.oneofs && GroupFits(spoke, hub, oo);
    }
  }

  lemma FeedsIff(spoke: Message, hub: Message, j: nat, a: nat)
    requires spoke.Sound() && GroupsFit(spoke, hub) && Pairs(spoke, hub, j, a)
    ensures Feeds(spoke, hub, j, a)
       <==> !Overtaken(spoke, hub, j, a) && (spoke.fields[j].oneof.None? ==> hub.fields[a].oneof.None?)
  {
    hide TargetName, GroupsFit;
    MemberGoesToMember(spoke, hub, j, a);
  }

  /** Names are unique, so a field has one target. */
  lemma OneTarget(spoke: Message, hub: Message, j: nat, a: nat, b: nat)
    requires hub.Sound() && Pairs(spoke, hub, j, a) && Pairs(spoke, hub, j, b)
    ensures a == b
  {
    hide TargetName;
  }

  // ---- Plain fields ----

  lemma IndexOf(es: seq<Assignment>, e: Assignment) returns (x: nat)
    requires e in es
    ensures x < |es| && es[x] == e
  {
    x :| 0 <= x < |es| && es[x] == e;
  }

  /** A plain field that feeds back comes back, whatever else is mapped where: it is the last to be written to
      its hub field and the only one to be read from there. */
  lemma PlainComesBack(d: Descriptors, pkg: string, spoke: Message, hub: Message, fwd: Code, rev: Code,
                       forth: Conversion, back: Conversion, r: Record, j: nat, a: nat)
    requires spoke.Sound() && hub.Sound()
    requires IsCode(d, pkg, spoke, hub, true, fwd) && IsCode(d, pkg, spoke, hub, false, rev)
    requires Feeds(spoke, hub, j, a) && spoke.fields[j].oneof.None?
    ensures Plain(ThereAndBack(forth, back, fwd, rev, r), j) == Apply(back, j, Apply(forth, j, Plain(r, j)))
  {
    hide AreSwitches, TargetName, Apply, RunPlain, RunSwitches, Dependency;
    var e := Assignment(j, a, Dependency(d, pkg, spoke.fields[j]));
    assert Belongs(d, pkg, spoke, hub, true, None, e) && Belongs(d, pkg, spoke, hub, false, None, e);
    var x := IndexOf(fwd.plain, e);
    var y := IndexOf(rev.plain, e);
    ForwardLast(d, pkg, spoke, hub, fwd.plain, x);
    ReverseLast(d, pkg, spoke, hub, rev.plain, y);
    var h := Convert(forth, true, fwd, r);
    PlainAfter(forth, true, fwd.plain, r, NEW, x, a);
    SwitchesKeepPlain(forth, true, fwd.switches, r, RunPlain(forth, true, fwd.plain, r, NEW));
    PlainAfter(back, false, rev.plain, h, NEW, y, j);
    SwitchesKeepPlain(back, false, rev.switches, h, RunPlain(back, false, rev.plain, h, NEW));
  }

  lemma ForwardLast(d: Descriptors, pkg: string, spoke: Message, hub: Message, es: seq<Assignment>, x: nat)
    requires AllOf(d, pkg, spoke, hub, true, None, es) && x < |es| && Feeds(spoke, hub, es[x].spoke, es[x].hub)
    requires spoke.fields[es[x].spoke].oneof.None?
    ensures LastTo(true, es, x, es[x].hub)
  {
    hide TargetName, Dependency;
    forall y | x < y < |es| ensures es[y].hub != es[x].hub {
      assert es[y] in es && es[x] in es;
      assert Belongs(d, pkg, spoke, hub, true, None, es[y]);
    }
  }

  lemma ReverseLast(d: Descriptors, pkg: string, spoke: Message, hub: Message, es: seq<Assignment>, y: nat)
    requires hub.Sound() && AllOf(d, pkg, spoke, hub, false, None, es) && y < |es|
    ensures LastTo(false, es, y, es[y].spoke)
  {
    hide TargetName, Dependency, LastOfTarget;
    forall z | y < z < |es| ensures es[z].spoke != es[y].spoke {
      assert es[y] in es && es[z] in es;
      assert Belongs(d, pkg, spoke, hub, false, None, es[y]) && Belongs(d, pkg, spoke, hub, false, None, es[z]);
      if es[z].spoke == es[y].spoke {
        OneTarget(spoke, hub, es[y].spoke, es[y].hub, es[z].hub);
      }
    }
  }

  // ---- Members of oneofs ----

  /** What comes back of a case: nothing of a nil message, else what the two conversions leave. */
  function Returned(d: Descriptors, pkg: string, spoke: Message, forth: Conversion, back: Conversion, j: nat,
                    v: Option<Value>): Option<Value>
    requires j < |spoke.fields|
  {
    if v.None? || (spoke.fields[j].oneof.Some? && Dependency(d, pkg, spoke.fields[j]).Some? && v.value.Nil?) then None
    else Some(Apply(back, j, Apply(forth, j, v.value)))
  }

  /** The conditions under which both directions exist and everything is undisturbed. */
  ghost predicate Calm(d: Descriptors, pkg: string, spoke: Message, hub: Message, fwd: Code, rev: Code) {
    && BothCodes(d, pkg, spoke, hub, fwd, rev) && AllUndisturbed(spoke, hub)
  }

  /** The two bodies that the generator writes for a pair of messages. */
  ghost predicate BothCodes(d: Descriptors, pkg: string, spoke: Message, hub: Message, fwd: Code, rev: Code) {
    && spoke.Sound() && hub.Sound() && GroupsFit(spoke, hub)
    && IsCode(d, pkg, spoke, hub, true, fwd) && IsCode(d, pkg, spoke, hub, false, rev)
  }

  /** Two members of one oneof with one target are one. */
  lemma SameMember(spoke: Message, hub: Message, oo: string, j: nat, k: nat, a: nat)
    requires AllUndisturbed(spoke, hub) && InGroup(spoke, hub, oo, j, a) && InGroup(spoke, hub, oo, k, a)
    ensures j == k
  {
    hide TargetName, OnlyFrom;
    assert Undisturbed(spoke, hub, j, a) && Undisturbed(spoke, hub, k, a);
  }

  lemma MoveIsOf(d: Descriptors, pkg: string, spoke: Message, hub: Message, toHub: bool, oo: string, c: Case,
                 e: Assignment)
    requires Moves(d, pkg, spoke, hub, toHub, oo, c, e)
    ensures InGroup(spoke, hub, oo, e.spoke, e.hub) && Source(e, toHub) == c.field && !Dropped(e, c.value)
    ensures e.call == Dependency(d, pkg, spoke.fields[e.spoke])
  {
    hide TargetName, LastOfTarget, Dependency;
  }

  /** The case in the hub oneof that member j of oneof oo is mapped into. */
  lemma HubCase(d: Descriptors, pkg: string, spoke: Message, hub: Message, fwd: Code, rev: Code,
                forth: Conversion, r: Record, oo: string, j: nat, a: nat)
    requires Calm(d, pkg, spoke, hub, fwd, rev) && InGroup(spoke, hub, oo, j, a) && hub.fields[a].oneof.Some?
    ensures var h, ho := Convert(forth, true, fwd, r), hub.fields[a].oneof.value;
      var v := Shown(spoke, r, j);
      var dropped := v.Some? && v.value.Nil? && Dependency(d, pkg, spoke.fields[j]).Some?;
      && (ho in h.active && h.active[ho].field == a <==> v.Some? && !dropped)
      && (v.Some? && !dropped ==> h.active[ho].value == Apply(forth, j, v.value))
  {
    hide TargetName, LastOfTarget, Dependency, Apply, Convert, IsCode, GroupsFit, OnlyFrom;
    assert Undisturbed(spoke, hub, j, a);
    var h, ho := Convert(forth, true, fwd, r), hub.fields[a].oneof.value;
    OneofAfter(d, pkg, spoke, hub, true, fwd, forth, r, oo, j, a);
    hide AllUndisturbed, Dropped;
    var own := Assignment(j, a, Dependency(d, pkg, spoke.fields[j]));
    if oo in r.active && r.active[oo].field == j && !Dropped(own, r.active[oo].value) {
      assert Moves(d, pkg, spoke, hub, true, oo, r.active[oo], own);
      assert ho in h.active;
    }
    if ho in h.active {
      var e :| Moves(d, pkg, spoke, hub, true, oo, r.active[oo], e)
        && h.active[ho] == CaseSet(forth, true, e, r.active[oo].value);
      MoveIsOf(d, pkg, spoke, hub, true, oo, r.active[oo], e);
      if e.hub == a { SameMember(spoke, hub, oo, j, e.spoke, a); }
      if e.spoke == j { OneTarget(spoke, hub, j, a, e.hub); }
      assert e.spoke == j <==> e.hub == a;
      assert e.spoke == j ==> e == own;
    }
    DroppedIs(own);
  }

  lemma DroppedIs(e: Assignment)
    ensures forall v :: Dropped(e, v) <==> e.call.Some? && v.Nil?
  {
  }

  /** The case that comes back into the spoke's oneof. */
  lemma CaseBack(d: Descriptors, pkg: string, spoke: Message, hub: Message, fwd: Code, rev: Code,
                 back: Conversion, h: Record, oo: string, j: nat, a: nat)
    requires Calm(d, pkg, spoke, hub, fwd, rev) && InGroup(spoke, hub, oo, j, a) && hub.fields[a].oneof.Some?
    ensures var out, ho := Convert(back, false, rev, h), hub.fields[a].oneof.value;
      var dropped := ho in h.active && h.active[ho].value.Nil? && Dependency(d, pkg, spoke.fields[j]).Some?;
      Shown(spoke, out, j) == if ho in h.active && h.active[ho].field == a && !dropped
                              then Some(Apply(back, j, h.active[ho].value)) else None
  {
    hide TargetName, LastOfTarget, Dependency, Apply, Convert, IsCode, GroupsFit, OnlyFrom;
    assert Undisturbed(spoke, hub, j, a);
    FeedsIff(spoke, hub, j, a);
    var out, ho := Convert(back, false, rev, h), hub.fields[a].oneof.value;
    OneofAfter(d, pkg, spoke, hub, false, rev, back, h, oo, j, a);
    hide AllUndisturbed, Dropped;
    var own := Assignment(j, a, Dependency(d, pkg, spoke.fields[j]));
    if ho in h.active && h.active[ho].field == a && !Dropped(own, h.active[ho].value) {
      assert Moves(d, pkg, spoke, hub, false, oo, h.active[ho], own);
      assert oo in out.active;
    }
    if oo in out.active {
      var e :| Moves(d, pkg, spoke, hub, false, oo, h.active[ho], e)
        && out.active[oo] == CaseSet(back, false, e, h.active[ho].value);
      MoveIsOf(d, pkg, spoke, hub, false, oo, h.active[ho], e);
      if e.hub == a { SameMember(spoke, hub, oo, j, e.spoke, a); }
      if e.spoke == j { OneTarget(spoke, hub, j, a, e.hub); }
      assert e.spoke == j <==> e.hub == a;
      assert e.spoke == j ==> e == own;
    }
    DroppedIs(own);
  }

  /** When every field is undisturbed, each mapped field shows afterwards what its own conversions leave of what
      it showed before. */
  lemma ComesBack(d: Descriptors, pkg: string, spoke: Message, hub: Message, fwd: Code, rev: Code,
                  forth: Conversion, back: Conversion, r: Record, j: nat, a: nat)
    requires Calm(d, pkg, spoke, hub, fwd, rev) && Pairs(spoke, hub, j, a)
    ensures Shown(spoke, ThereAndBack(forth, back, fwd, rev, r), j)
         == Returned(d, pkg, spoke, forth, back, j, Shown(spoke, r, j))
  {
    hide TargetName, Dependency, IsCode, Convert, GroupsFit, LastOfTarget;
    assert Undisturbed(spoke, hub, j, a);
    FeedsIff(spoke, hub, j, a);
    MemberGoesToMember(spoke, hub, j, a);
    if spoke.fields[j].oneof.None? {
      PlainComesBack(d, pkg, spoke, hub, fwd, rev, forth, back, r, j, a);
    } else {
      var oo := spoke.fields[j].oneof.value;
      assert InGroup(spoke, hub, oo, j, a);
      HubCase(d, pkg, spoke, hub, fwd, rev, forth, r, oo, j, a);
      CaseBack(d, pkg, spoke, hub, fwd, rev, back, Convert(forth, true, fwd, r), oo, j, a);
    }
  }

  // ---- What is lost ----

  /** A record in which nothing but field j is set. */
  function Only(spoke: Message, j: nat, v: Value): Record
    requires j < |spoke.fields|
  {
    match spoke.fields[j].oneof
    case None => Record(map[j := v], map[])
    case Some(oo) => Record(map[], map[oo := Case(j, v)])
  }

  /** The member that a case of the spoke's oneof afterwards comes from. */
  lemma CaseOrigin(d: Descriptors, pkg: string, spoke: Message, hub: Message, fwd: Code, rev: Code,
                   back: Conversion, h: Record, oo: string, j: nat, a: nat) returns (e: Assignment)
    requires BothCodes(d, pkg, spoke, hub, fwd, rev) && InGroup(spoke, hub, oo, j, a)
    requires hub.fields[a].oneof.Some? && oo in Convert(back, false, rev, h).active
    ensures hub.fields[a].oneof.value in h.active && h.active[hub.fields[a].oneof.value].field == e.hub
    ensures Feeds(spoke, hub, e.spoke, e.hub) && spoke.fields[e.spoke].oneof == Some(oo)
    ensures Convert(back, false, rev, h).active[oo].field == e.spoke
  {
    hide TargetName, LastOfTarget, Dependency, Apply, Convert, IsCode, GroupsFit;
    var ho := hub.fields[a].oneof.value;
    OneofAfter(d, pkg, spoke, hub, false, rev, back, h, oo, j, a);
    e :| Moves(d, pkg, spoke, hub, false, oo, h.active[ho], e)
      && Convert(back, false, rev, h).active[oo] == CaseSet(back, false, e, h.active[ho].value);
  }

  /** A mapped field that is not assigned on the way back is lost. */
  lemma UnfedIsLost(d: Descriptors, pkg: string, spoke: Message, hub: Message, fwd: Code, rev: Code,
                    forth: Conversion, back: Conversion, j: nat, a: nat)
    requires BothCodes(d, pkg, spoke, hub, fwd, rev) && Pairs(spoke, hub, j, a) && !Feeds(spoke, hub, j, a)
    ensures Legal(spoke, Only(spoke, j, Data(0)), false)
    ensures Shown(spoke, ThereAndBack(forth, back, fwd, rev, Only(spoke, j, Data(0))), j)
         != Shown(spoke, Only(spoke, j, Data(0)), j)
  {
    hide TargetName, LastOfTarget, Dependency, RunPlain, RunSwitches, AreSwitches, GroupsFit;
    MemberGoesToMember(spoke, hub, j, a);
    var r := Only(spoke, j, Data(0));
    var h := Convert(forth, true, fwd, r);
    var out := Convert(back, false, rev, h);
    if spoke.fields[j].oneof.None? {
      forall x | 0 <= x < |rev.plain| ensures rev.plain[x].spoke != j {
        var e := rev.plain[x];
        assert e in rev.plain && Belongs(d, pkg, spoke, hub, false, None, e);
        if e.spoke == j { OneTarget(spoke, hub, j, a, e.hub); }
      }
      PlainUntouched(back, false, rev.plain, h, NEW, j);
      SwitchesKeepPlain(back, false, rev.switches, h, RunPlain(back, false, rev.plain, h, NEW));
    } else {
      var oo := spoke.fields[j].oneof.value;
      assert InGroup(spoke, hub, oo, j, a);
      if oo in out.active {
        var e := CaseOrigin(d, pkg, spoke, hub, fwd, rev, back, h, oo, j, a);
        if e.spoke == j { OneTarget(spoke, hub, j, a, e.hub); }
      }
    }
  }

  /** Both oneofs set. */
  function Both(o1: string, j: nat, o2: string, k: nat): Record {
    Record(map[], map[o1 := Case(j, Data(0)), o2 := Case(k, Data(0))])
  }

  /** Of two oneofs that share a hub oneof only one comes back. */
  lemma OneOfTwoIsLost(d: Descriptors, pkg: string, spoke: Message, hub: Message, fwd: Code, rev: Code,
                       forth: Conversion, back: Conversion, o1: string, j: nat, a: nat, o2: string, k: nat, b: nat)
    requires BothCodes(d, pkg, spoke, hub, fwd, rev) && InGroup(spoke, hub, o1, j, a) && InGroup(spoke, hub, o2, k, b)
    requires o1 != o2 && a != b && hub.fields[a].oneof.Some? && hub.fields[a].oneof == hub.fields[b].oneof
    ensures Legal(spoke, Both(o1, j, o2, k), false)
    ensures var r := Both(o1, j, o2, k);
      var out := ThereAndBack(forth, back, fwd, rev, r);
      Shown(spoke, out, j) != Shown(spoke, r, j) || Shown(spoke, out, k) != Shown(spoke, r, k)
  {
    hide TargetName, LastOfTarget, Dependency, Convert, IsCode, GroupsFit;
    var h := Convert(forth, true, fwd, Both(o1, j, o2, k));
    var out := Convert(back, false, rev, h);
    if o1 in out.active && o2 in out.active {
      var e := CaseOrigin(d, pkg, spoke, hub, fwd, rev, back, h, o1, j, a);
      var f := CaseOrigin(d, pkg, spoke, hub, fwd, rev, back, h, o2, k, b);
      if e.spoke == j { OneTarget(spoke, hub, j, a, e.hub); }
      if f.spoke == k { OneTarget(spoke, hub, k, b, f.hub); }
    }
  }

  /** A case set from a record without nil cases is not nil. */
  lemma NoNilAppears(conv: Conversion, code: Code, r: Record, o: string)
    requires forall oo :: oo in r.active ==> r.active[oo].value.Data?
    ensures var h := Convert(conv, true, code, r); o in h.active ==> h.active[o].value.Data?
  {
    hide RunPlain, RunSwitches;
    PlainKeepsActive(conv, true, code.plain, r, NEW);
    ActiveAfter(conv, true, code.switches, r, RunPlain(conv, true, code.plain, r, NEW), o);
  }

  /** Of two oneofs that share a hub field, one comes back although it was not set. */
  lemma OneTooMany(d: Descriptors, pkg: string, spoke: Message, hub: Message, fwd: Code, rev: Code,
                   forth: Conversion, back: Conversion, o1: string, j: nat, o2: string, k: nat, a: nat)
    requires BothCodes(d, pkg, spoke, hub, fwd, rev) && InGroup(spoke, hub, o1, j, a) && InGroup(spoke, hub, o2, k, a)
    requires o1 != o2 && hub.fields[a].oneof.Some? && Feeds(spoke, hub, j, a)
    ensures Legal(spoke, Only(spoke, k, Data(0)), false)
    ensures !Restores(spoke, hub, forth, back, fwd, rev, Only(spoke, k, Data(0)))
  {
    hide TargetName, LastOfTarget, Dependency, Convert, IsCode, GroupsFit;
    var r, ho := Only(spoke, k, Data(0)), hub.fields[a].oneof.value;
    var h := Convert(forth, true, fwd, r);
    var out := Convert(back, false, rev, h);
    if Shown(spoke, out, k) == Shown(spoke, r, k) {
      var f := CaseOrigin(d, pkg, spoke, hub, fwd, rev, back, h, o2, k, a);
      OneTarget(spoke, hub, k, a, f.hub);
      NoNilAppears(forth, fwd, r, ho);
      OneofAfter(d, pkg, spoke, hub, false, rev, back, h, o1, j, a);
      assert Moves(d, pkg, spoke, hub, false, o1, h.active[ho], Assignment(j, a, Dependency(d, pkg, spoke.fields[j])));
      var e := CaseOrigin(d, pkg, spoke, hub, fwd, rev, back, h, o1, j, a);
      assert Pairs(spoke, hub, e.spoke, e.hub);
      assert Shown(spoke, out, e.spoke).Some? && Shown(spoke, r, e.spoke).None?;
    }
  }

  /** Something disturbed is not restored. */
  lemma DisturbedIsLost(d: Descriptors, pkg: string, spoke: Message, hub: Message, fwd: Code, rev: Code,
                        forth: Conversion, back: Conversion, j: nat, a: nat) returns (r: Record)
    requires BothCodes(d, pkg, spoke, hub, fwd, rev) && Pairs(spoke, hub, j, a) && !Undisturbed(spoke, hub, j, a)
    ensures Legal(spoke, r, false) && !Restores(spoke, hub, forth, back, fwd, rev, r)
  {
    hide TargetName, LastOfTarget, IsCode, GroupsFit, ThereAndBack, Legal;
    FeedsIff(spoke, hub, j, a);
    if !Feeds(spoke, hub, j, a) {
      UnfedIsLost(d, pkg, spoke, hub, fwd, rev, forth, back, j, a);
      return Only(spoke, j, Data(0));
    }
    var o1, ho := spoke.fields[j].oneof.value, hub.fields[a].oneof.value;
    var k: nat, b: nat :| Pairs(spoke, hub, k, b) && spoke.fields[k].oneof.Some? && hub.fields[b].oneof == Some(ho)
      && spoke.fields[k].oneof != Some(o1);
    var o2 := spoke.fields[k].oneof.value;
    assert InGroup(spoke, hub, o1, j, a) && InGroup(spoke, hub, o2, k, b);
    if a == b {
      OneTooMany(d, pkg, spoke, hub, fwd, rev, forth, back, o1, j, o2, k, a);
      return Only(spoke, k, Data(0));
    }
    OneOfTwoIsLost(d, pkg, spoke, hub, fwd, rev, forth, back, o1, j, a, o2, k, b);
    return Both(o1, j, o2, k);
  }

  // ---- Exactly when nothing is lost ----

  /** What the assignment of a mapped field does to content is undone on the way back: for a message, its own
      Convert functions lose nothing. */
  ghost predicate ConversionsUndone(spoke: Message, hub: Message, forth: Conversion, back: Conversion) {
    forall j, a, c :: Pairs(spoke, hub, j, a) ==> back(j, forth(j, c)) == c
  }

  ghost predicate NoMessageMembers(d: Descriptors, pkg: string, spoke: Message, hub: Message) {
    forall j: nat, a: nat :: Pairs(spoke, hub, j, a) && spoke.fields[j].oneof.Some? ==>
      Dependency(d, pkg, spoke.fields[j]).None?
  }

  ghost predicate AllRestored(spoke: Message, hub: Message, forth: Conversion, back: Conversion, fwd: Code, rev: Code,
                              nils: bool)
  {
    forall r :: Legal(spoke, r, nils) ==> Restores(spoke, hub, forth, back, fwd, rev, r)
  }

  lemma AllComeBack(d: Descriptors, pkg: string, spoke: Message, hub: Message, fwd: Code, rev: Code,
                    forth: Conversion, back: Conversion, nils: bool)
    requires Calm(d, pkg, spoke, hub, fwd, rev) && ConversionsUndone(spoke, hub, forth, back)
    requires nils ==> NoMessageMembers(d, pkg, spoke, hub)
    ensures AllRestored(spoke, hub, forth, back, fwd, rev, nils)
  {
    hide BothCodes, AllUndisturbed, ThereAndBack, Dependency, TargetName, ConversionsUndone;
    forall r, j, a | Legal(spoke, r, nils) && Pairs(spoke, hub, j, a)
      ensures Shown(spoke, ThereAndBack(forth, back, fwd, rev, r), j) == Shown(spoke, r, j)
    {
      ComesBack(d, pkg, spoke, hub, fwd, rev, forth, back, r, j, a);
      if Shown(spoke, r, j).Some? && Shown(spoke, r, j).value.Data? {
        ContentUndone(spoke, hub, forth, back, j, a, Shown(spoke, r, j).value.content);
      }
    }
  }

  lemma ContentUndone(spoke: Message, hub: Message, forth: Conversion, back: Conversion, j: nat, a: nat, c: int)
    requires ConversionsUndone(spoke, hub, forth, back) && Pairs(spoke, hub, j, a)
    ensures back(j, forth(j, c)) == c
  {
  }

  /** The conditions beyond being undisturbed are needed. */
  lemma ConversionsMatter(d: Descriptors, pkg: string, spoke: Message, hub: Message, fwd: Code, rev: Code,
                          forth: Conversion, back: Conversion, nils: bool)
    requires Calm(d, pkg, spoke, hub, fwd, rev) && AllRestored(spoke, hub, forth, back, fwd, rev, nils)
    ensures ConversionsUndone(spoke, hub, forth, back) && (nils ==> NoMessageMembers(d, pkg, spoke, hub))
  {
    hide BothCodes, AllUndisturbed, ThereAndBack, Dependency, TargetName;
    forall j, a, c | Pairs(spoke, hub, j, a) ensures back(j, forth(j, c)) == c {
      ComesBack(d, pkg, spoke, hub, fwd, rev, forth, back, Only(spoke, j, Data(c)), j, a);
      assert Legal(spoke, Only(spoke, j, Data(c)), nils);
    }
    if nils {
      forall j: nat, a: nat | Pairs(spoke, hub, j, a) && spoke.fields[j].oneof.Some?
        ensures Dependency(d, pkg, spoke.fields[j]).None?
      {
        ComesBack(d, pkg, spoke, hub, fwd, rev, forth, back, Only(spoke, j, Nil), j, a);
        assert Legal(spoke, Only(spoke, j, Nil), nils);
      }
    }
  }

  /** Converting to the hub and back restores the mapped fields of every record if and only if every field is
      undisturbed and every field's own conversion is undone; and, should cases with nil messages occur, no
      mapped member of a oneof is a message to convert. */
  lemma RoundTripIff(d: Descriptors, pkg: string, spoke: Message, hub: Message, fwd: Code, rev: Code,
                     forth: Conversion, back: Conversion, nils: bool)
    requires BothCodes(d, pkg, spoke, hub, fwd, rev)
    ensures AllRestored(spoke, hub, forth, back, fwd, rev, nils)
       <==> && AllUndisturbed(spoke, hub) && ConversionsUndone(spoke, hub, forth, back)
            && (nils ==> NoMessageMembers(d, pkg, spoke, hub))
  {
    hide BothCodes, Restores, Undisturbed, ConversionsUndone, NoMessageMembers, TargetName;
    if !AllUndisturbed(spoke, hub) {
      var j: nat, a: nat :| Pairs(spoke, hub, j, a) && !Undisturbed(spoke, hub, j, a);
      var r := DisturbedIsLost(d, pkg, spoke, hub, fwd, rev, forth, back, j, a);
      assert Legal(spoke, r, nils);
    } else {
      hide AllUndisturbed, AllRestored;
      if AllRestored(spoke, hub, forth, back, fwd, rev, nils) {
        ConversionsMatter(d, pkg, spoke, hub, fwd, rev, forth, back, nils);
      }
      if ConversionsUndone(spoke, hub, forth, back) && (nils ==> NoMessageMembers(d, pkg, spoke, hub)) {
        AllComeBack(d, pkg, spoke, hub, fwd, rev, forth, back, nils);
      }
    }
  }

  // ---- The pairs assigned, without values ----

  /** Field k is the only one of its group that is assigned from hub field a on the way back, and none later is
      mapped there. */
  ghost predicate ReadsBack(spoke: Message, hub: Message, oneof: Option<string>, k: nat, a: nat) {
    && Feeds(spoke, hub, k, a) && spoke.fields[k].oneof == oneof && !Overtaken(spoke, hub, k, a)
    && forall i: nat :: Feeds(spoke, hub, i, a) && spoke.fields[i].oneof == oneof ==> i == k
  }

  /** Of the fields of a group that are mapped to one hub field of their sort, exactly one is assigned on the way
      back, the last. */
  lemma {:induction false} ReadBackOnce(spoke: Message, hub: Message, j: nat, a: nat)
    requires Pairs(spoke, hub, j, a) && spoke.fields[j].oneof.Some? == hub.fields[a].oneof.Some?
    ensures exists k :: k >= j && ReadsBack(spoke, hub, spoke.fields[j].oneof, k, a)
    decreases |spoke.fields| - j
  {
    hide TargetName;
    if k: nat :| k > j && Pairs(spoke, hub, k, a) && spoke.fields[k].oneof == spoke.fields[j].oneof {
      ReadBackOnce(spoke, hub, k, a);
    } else {
      assert ReadsBack(spoke, hub, spoke.fields[j].oneof, j, a);
    }
  }

  /** Both directions assign the same pairs if and only if no field is overtaken and no plain field is mapped
      into a hub oneof. For values this is not enough: two oneofs must not share a hub oneof either. */
  lemma SameAssignmentsIff(d: Descriptors, pkg: string, spoke: Message, hub: Message, fwd: Code, rev: Code)
    requires BothCodes(d, pkg, spoke, hub, fwd, rev)
    ensures Assignments(fwd) == Assignments(rev)
       <==> forall j: nat, a: nat :: Pairs(spoke, hub, j, a) ==>
              && !Overtaken(spoke, hub, j, a) && (spoke.fields[j].oneof.None? ==> hub.fields[a].oneof.None?)
  {
    hide TargetName, Dependency, Assignments, IsCode, GroupsFit, LastOfTarget;
    BodyAssigns(d, pkg, spoke, hub, true, fwd);
    BodyAssigns(d, pkg, spoke, hub, false, rev);
    forall j: nat, a: nat | Pairs(spoke, hub, j, a)
      ensures Feeds(spoke, hub, j, a)
         <==> !Overtaken(spoke, hub, j, a) && (spoke.fields[j].oneof.None? ==> hub.fields[a].oneof.None?)
      ensures IsAssignment(d, pkg, spoke, hub, true, Assignment(j, a, Dependency(d, pkg, spoke.fields[j])))
    {
      FeedsIff(spoke, hub, j, a);
    }
  }

  // ---- Two pairs of messages that lose values ----

  const STRING := Basic("string")

  /** Members x and y of one oneof, both renamed to h. */
  const TWO_MEMBERS := Message("v1", "a.proto", "A", "", false, true, ["o"],
    [Field("x", Single, STRING, false, "h", Some("o")), Field("y", Single, STRING, false, "h", Some("o"))])
  const ONE_MEMBER := Message("v2", "a.proto", "A", "", false, true, ["ho"],
    [Field("h", Single, STRING, false, "", Some("ho"))])

  /** The generator accepts the pair in both directions, and x is lost. */
  lemma SharedTargetLoses(d: Descriptors, fwd: Code, rev: Code, forth: Conversion, back: Conversion)
    requires IsCode(d, "v1", TWO_MEMBERS, ONE_MEMBER, true, fwd) && IsCode(d, "v1", TWO_MEMBERS, ONE_MEMBER, false, rev)
    ensures forall toHub :: Accepts(d, "v1", TWO_MEMBERS, ONE_MEMBER, toHub)
    ensures Covered(TWO_MEMBERS, ONE_MEMBER, {})
    ensures var x := Record(map[], map["o" := Case(0, Data(0))]);
      Legal(TWO_MEMBERS, x, false)
      && Shown(TWO_MEMBERS, ThereAndBack(forth, back, fwd, rev, x), 0) != Shown(TWO_MEMBERS, x, 0)
  {
    hide IsCode, ThereAndBack;
    assert Pairs(TWO_MEMBERS, ONE_MEMBER, 0, 0) && Pairs(TWO_MEMBERS, ONE_MEMBER, 1, 0);
    UnfedIsLost(d, "v1", TWO_MEMBERS, ONE_MEMBER, fwd, rev, forth, back, 0, 0);
  }

  /** Two oneofs whose members go to one hub oneof. */
  const TWO_ONEOFS := Message("v1", "a.proto", "A", "", false, true, ["o1", "o2"],
    [Field("x", Single, STRING, false, "", Some("o1")), Field("y", Single, STRING, false, "", Some("o2"))])
  const ONE_ONEOF := Message("v2", "a.proto", "A", "", false, true, ["ho"],
    [Field("x", Single, STRING, false, "", Some("ho")), Field("y", Single, STRING, false, "", Some("ho"))])

  lemma TwoOneofsPairs()
    ensures forall j: nat, a: nat :: Pairs(TWO_ONEOFS, ONE_ONEOF, j, a) <==> j == a < 2
    ensures TWO_ONEOFS.Sound() && ONE_ONEOF.Sound()
  {
  }

  lemma TwoOneofsFit()
    ensures Covered(TWO_ONEOFS, ONE_ONEOF, {}) && GroupsFit(TWO_ONEOFS, ONE_ONEOF)
  {
    TwoOneofsPairs();
    hide Pairs, TargetName;
    assert Pairs(TWO_ONEOFS, ONE_ONEOF, 0, 0) && Pairs(TWO_ONEOFS, ONE_ONEOF, 1, 1);
  }

  lemma TwoOneofsAccepted(d: Descriptors, toHub: bool)
    ensures Accepts(d, "v1", TWO_ONEOFS, ONE_ONEOF, toHub)
  {
    TwoOneofsPairs();
    TwoOneofsFit();
    hide Pairs, TargetName, LastOfTarget, GroupsFit, Covered;
  }

  /** Accepted, and both directions assign the same pairs; still, of x and y, both set, one is lost. */
  lemma SharedOneofLoses(d: Descriptors, fwd: Code, rev: Code, forth: Conversion, back: Conversion)
    requires IsCode(d, "v1", TWO_ONEOFS, ONE_ONEOF, true, fwd) && IsCode(d, "v1", TWO_ONEOFS, ONE_ONEOF, false, rev)
    ensures forall toHub :: Accepts(d, "v1", TWO_ONEOFS, ONE_ONEOF, toHub)
    ensures Covered(TWO_ONEOFS, ONE_ONEOF, {}) && Assignments(fwd) == Assignments(rev)
    ensures var r := Record(map[], map["o1" := Case(0, Data(0)), "o2" := Case(1, Data(0))]);
      Legal(TWO_ONEOFS, r, false) && !Restores(TWO_ONEOFS, ONE_ONEOF, forth, back, fwd, rev, r)
  {
    hide IsCode, ThereAndBack, Assignments, Accepts, Covered, Pairs, GroupsFit;
    var s, h := TWO_ONEOFS, ONE_ONEOF;
    TwoOneofsAccepted(d, true);
    TwoOneofsAccepted(d, false);
    TwoOneofsFit();
    TwoOneofsPairs();
    SameAssignmentsIff(d, "v1", s, h, fwd, rev);
    OneOfTwoIsLost(d, "v1", s, h, fwd, rev, forth, back, "o1", 0, 0, "o2", 1, 1);
  }
}
