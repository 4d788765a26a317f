/** Which messages the conversion generator handles, and why its output calls only functions it also
    generates. */
module ConversionTargets {
  import opened Wrappers

  /** A message by its full name. */
  type Id = string

  /** The type of a field, of its elements for a list, of its values for a map. An enum has its name and its
      string options by name. */
  datatype Elem = Basic(kind: string) | EnumOf(name: string, options: map<string, string>) | MessageOf(target: Id)

  /** A map has its key kind and the Go name of its entry message. */
  datatype Shape = Single | Listed | Mapped(key: string, entry: string)

  /** `renameTo` is field_rename_to or empty; `oneof` is the real (not synthetic) oneof of a member. */
  datatype Field =
    Field(name: string, shape: Shape, elem: Elem, ignored: bool, renameTo: string, oneof: Option<string>)

  /** `renameTo` is rename_to or empty, `crd` is has_resource, `marked` is resource.conversion, `oneofs` the
      real oneofs. */
  datatype Message = Message(pkg: string, file: string, goName: string, renameTo: string, crd: bool, marked: bool,
                             oneofs: seq<string>, fields: seq<Field>)
  {
    /** What protobuf guarantees of a message by itself. */
    predicate Sound() {
      && (forall a, b :: 0 <= a < b < |fields| ==> fields[a].name != fields[b].name)
      && (forall a, b :: 0 <= a < b < |oneofs| ==> oneofs[a] != oneofs[b])
      && (forall k :: 0 <= k < |fields| && fields[k].oneof.Some? ==> fields[k].oneof.value in oneofs)
    }
  }

  /** A file lists its top-level messages; `generate` says that output is produced for it. */
  datatype File = File(path: string, pkg: string, messages: seq<Id>, generate: bool)

  datatype Descriptors = Descriptors(files: seq<File>, messages: map<Id, Message>) {
    predicate Closed() {
      && (forall i, k :: 0 <= i < |files| && 0 <= k < |files[i].messages| ==>
            files[i].messages[k] in messages && messages[files[i].messages[k]].pkg == files[i].pkg)
      && (forall m :: m in messages ==> messages[m].Sound())
      && (forall m, k :: m in messages && 0 <= k < |messages[m].fields| && messages[m].fields[k].elem.MessageOf? ==>
            messages[m].fields[k].elem.target in messages)
    }
  }

  // ---- What is needed ----

  /** The message type a field carries: its own, or its map's value type. */
  function Carried(f: Field): Option<Id> {
    if f.elem.MessageOf? then Some(f.elem.target) else None
  }

  predicate Local(d: Descriptors, pkg: string, t: Id) {
    t in d.messages && d.messages[t].pkg == pkg
  }

  /** The message of the same package that a field draws in, unless it is ignored. */
  function Dependency(d: Descriptors, pkg: string, f: Field): Option<Id> {
    if !f.ignored && Carried(f).Some? && Local(d, pkg, Carried(f).value) then Carried(f) else None
  }

  predicate DependsOn(d: Descriptors, pkg: string, a: Id, b: Id) {
    && a in d.messages
    && exists k :: 0 <= k < |d.messages[a].fields| && Dependency(d, pkg, d.messages[a].fields[k]) == Some(b)
  }

  /** A top-level message of the package that is marked for conversion. */
  predicate IsRoot(d: Descriptors, pkg: string, m: Id) {
    m in d.messages && d.messages[m].marked
    && exists i :: 0 <= i < |d.files| && d.files[i].pkg == pkg && m in d.files[i].messages
  }

  predicate IsWay(d: Descriptors, pkg: string, p: seq<Id>) {
    p != [] && forall k :: 0 <= k < |p| - 1 ==> DependsOn(d, pkg, p[k], p[k + 1])
  }

  /** Reachable from a marked message through fields that are not ignored. */
  ghost predicate Needed(d: Descriptors, pkg: string, m: Id) {
    exists p :: IsWay(d, pkg, p) && IsRoot(d, pkg, p[0]) && p[|p| - 1] == m
  }

  lemma RootNeeded(d: Descriptors, pkg: string, m: Id)
    requires IsRoot(d, pkg, m)
    ensures Needed(d, pkg, m)
  {
    assert IsWay(d, pkg, [m]);
  }

  lemma NeededOn(d: Descriptors, pkg: string, a: Id, b: Id)
    requires Needed(d, pkg, a) && DependsOn(d, pkg, a, b)
    ensures Needed(d, pkg, b)
  {
    var p :| IsWay(d, pkg, p) && IsRoot(d, pkg, p[0]) && p[|p| - 1] == a;
    var q := p + [b];
    hide DependsOn, IsRoot;
    assert IsWay(d, pkg, q) by {
      forall k | 0 <= k < |q| - 1 ensures DependsOn(d, pkg, q[k], q[k + 1]) {
        if k < |p| - 1 { assert DependsOn(d, pkg, p[k], p[k + 1]); }
      }
    }
    assert q[0] == p[0] && q[|q| - 1] == b;
  }

  predicate ClosedUnder(d: Descriptors, pkg: string, s: set<Id>, from: set<Id>) {
    forall a :: a in from && a in d.messages ==> forall k :: 0 <= k < |d.messages[a].fields| ==>
      var t := Dependency(d, pkg, d.messages[a].fields[k]); t.Some? ==> t.value in s
  }

  lemma {:induction false} WayStaysInside(d: Descriptors, pkg: string, s: set<Id>, p: seq<Id>)
    requires ClosedUnder(d, pkg, s, s) && IsWay(d, pkg, p) && p[0] in s
    ensures p[|p| - 1] in s
    decreases |p|
  {
    if |p| > 1 {
      assert DependsOn(d, pkg, p[0], p[1]);
      forall k | 0 <= k < |p[1..]| - 1 ensures DependsOn(d, pkg, p[1..][k], p[1..][k + 1]) {
        assert DependsOn(d, pkg, p[k + 1], p[k + 2]);
      }
      WayStaysInside(d, pkg, s, p[1..]);
    }
  }

  /** A closed set with all the roots has everything that is needed. */
  lemma ClosedHasNeeded(d: Descriptors, pkg: string, s: set<Id>, m: Id)
    requires ClosedUnder(d, pkg, s, s) && (forall r :: IsRoot(d, pkg, r) ==> r in s) && Needed(d, pkg, m)
    ensures m in s
  {
    var p :| IsWay(d, pkg, p) && IsRoot(d, pkg, p[0]) && p[|p| - 1] == m;
    WayStaysInside(d, pkg, s, p);
  }

  // ---- The worklist ----

  ghost predicate AllNeeded(d: Descriptors, pkg: string, s: set<Id>) {
    forall m :: m in s ==> m in d.messages && Needed(d, pkg, m)
  }

  /** The marked messages of one file, put into the set and the queue. */
  method AddRoots(d: Descriptors, pkg: string, i: nat, found: set<Id>) returns (targets: set<Id>, queue: seq<Id>)
    requires d.Closed() && i < |d.files| && d.files[i].pkg == pkg && AllNeeded(d, pkg, found)
    ensures AllNeeded(d, pkg, targets) && found <= targets && (forall m :: m in queue ==> m in targets)
    ensures forall m :: m in targets && m !in found ==> m in queue
    ensures forall m :: m in d.files[i].messages && d.messages[m].marked ==> m in targets
  {
    hide Needed;
    var file := d.files[i];
    targets, queue := found, [];
    for k := 0 to |file.messages|
      invariant AllNeeded(d, pkg, targets) && found <= targets && (forall m :: m in queue ==> m in targets)
      invariant forall m :: m in targets && m !in found ==> m in queue
      invariant forall j :: 0 <= j < k && d.messages[file.messages[j]].marked ==> file.messages[j] in targets
    {
      var m := file.messages[k];
      if d.messages[m].marked {
        assert IsRoot(d, pkg, m);
        RootNeeded(d, pkg, m);
        targets := targets + {m};
        queue := queue + [m];
      }
    }
  }

  /** Draws in what one message depends on. */
  method Expand(d: Descriptors, pkg: string, cur: Id, found: set<Id>, rest: seq<Id>)
    returns (targets: set<Id>, queue: seq<Id>)
    requires d.Closed() && cur in found && AllNeeded(d, pkg, found) && (forall m :: m in rest ==> m in found)
    ensures AllNeeded(d, pkg, targets) && found <= targets && (forall m :: m in queue ==> m in targets)
    ensures rest <= queue && (targets == found ==> queue == rest)
    ensures forall m :: m in targets && m !in found ==> m in queue
    ensures ClosedUnder(d, pkg, targets, {cur})
  {
    hide Needed;
    targets, queue := found, rest;
    var fields := d.messages[cur].fields;
    for k := 0 to |fields|
      invariant AllNeeded(d, pkg, targets) && found <= targets && (forall m :: m in queue ==> m in targets)
      invariant rest <= queue && (targets == found ==> queue == rest)
      invariant forall m :: m in targets && m !in found ==> m in queue
      invariant forall j :: 0 <= j < k && Dependency(d, pkg, fields[j]).Some? ==>
                  Dependency(d, pkg, fields[j]).value in targets
    {
      var f := fields[k];
      if !f.ignored && f.elem.MessageOf? {
        var t := f.elem.target;
        if d.messages[t].pkg == pkg {
          assert Dependency(d, pkg, fields[k]) == Some(t);
          assert DependsOn(d, pkg, cur, t);
          NeededOn(d, pkg, cur, t);
          if t !in targets {
            targets := targets + {t};
            queue := queue + [t];
          }
        }
      }
    }
  }

  lemma ClosedGrows(d: Descriptors, pkg: string, s: set<Id>, s': set<Id>, from: set<Id>, cur: Id)
    requires ClosedUnder(d, pkg, s, from) && ClosedUnder(d, pkg, s', {cur}) && s <= s'
    ensures ClosedUnder(d, pkg, s', from + {cur})
  {
  }

  lemma FewerLeft(d: Descriptors, s: set<Id>, s': set<Id>)
    requires s <= s' <= d.messages.Keys
    ensures |d.messages.Keys - s'| <= |d.messages.Keys - s|
    ensures s != s' ==> |d.messages.Keys - s'| < |d.messages.Keys - s|
  {
    var left := d.messages.Keys - s';
    assert d.messages.Keys - s == left + (s' - s);
    if s != s' {
      var x :| x in s' - s;
    }
  }

  /** The messages already expanded. */
  function Expanded(s: set<Id>, queue: seq<Id>): set<Id> {
    set m | m in s && m !in queue
  }

  method Drain(d: Descriptors, pkg: string, found: set<Id>, queue': seq<Id>) returns (targets: set<Id>)
    requires d.Closed() && AllNeeded(d, pkg, found) && (forall m :: m in queue' ==> m in found)
    requires ClosedUnder(d, pkg, found, Expanded(found, queue'))
    ensures AllNeeded(d, pkg, targets) && found <= targets && ClosedUnder(d, pkg, targets, targets)
  {
    hide Needed, ClosedUnder, Dependency, Descriptors.Closed;
    targets := found;
    var queue := queue';
    while |queue| > 0
      invariant AllNeeded(d, pkg, targets) && found <= targets && (forall m :: m in queue ==> m in targets)
      invariant ClosedUnder(d, pkg, targets, Expanded(targets, queue))
      decreases |d.messages.Keys - targets|, |queue|
    {
      var cur := queue[0];
      ghost var before, all := targets, queue;
      targets, queue := Expand(d, pkg, cur, targets, queue[1..]);
      FewerLeft(d, before, targets);
      ClosedGrows(d, pkg, before, targets, Expanded(before, all), cur);
      ExpandedShrinks(d, pkg, before, all, targets, queue);
    }
    assert Expanded(targets, queue) == targets;
  }

  lemma ExpandedShrinks(d: Descriptors, pkg: string, before: set<Id>, all: seq<Id>, targets: set<Id>, queue: seq<Id>)
    requires |all| > 0 && all[1..] <= queue
    requires forall m :: m in targets && m !in before ==> m in queue
    requires ClosedUnder(d, pkg, targets, Expanded(before, all) + {all[0]})
    ensures ClosedUnder(d, pkg, targets, Expanded(targets, queue))
  {
    forall k | 0 < k < |all| ensures all[k] in queue {
      assert queue[k - 1] == all[1..][k - 1] == all[k];
    }
  }

  /** The marked messages of the package's files before i are all there. */
  predicate RootsFound(d: Descriptors, pkg: string, s: set<Id>, i: nat)
    requires d.Closed() && i <= |d.files|
  {
    forall j :: 0 <= j < i && d.files[j].pkg == pkg ==>
      forall m :: m in d.files[j].messages && d.messages[m].marked ==> m in s
  }

  method CollectFile(d: Descriptors, pkg: string, i: nat, found: set<Id>) returns (targets: set<Id>)
    requires d.Closed() && i < |d.files|
    requires AllNeeded(d, pkg, found) && ClosedUnder(d, pkg, found, found) && RootsFound(d, pkg, found, i)
    ensures AllNeeded(d, pkg, targets) && ClosedUnder(d, pkg, targets, targets) && RootsFound(d, pkg, targets, i + 1)
  {
    hide AllNeeded, ClosedUnder;
    targets := found;
    if d.files[i].pkg == pkg {
      var more, queue := AddRoots(d, pkg, i, targets);
      if more != {} {
        RootsPending(d, pkg, targets, more, queue);
        targets := Drain(d, pkg, more, queue);
      }
    }
  }

  /** `collectTargets` returns exactly the messages that are needed. */
  method CollectTargets(d: Descriptors, pkg: string) returns (targets: set<Id>)
    requires d.Closed()
    ensures forall m :: m in targets <==> Needed(d, pkg, m)
  {
    hide Needed, Dependency, IsRoot;
    targets := {};
    for i := 0 to |d.files|
      invariant AllNeeded(d, pkg, targets) && ClosedUnder(d, pkg, targets, targets) && RootsFound(d, pkg, targets, i)
    {
      hide AllNeeded, ClosedUnder, RootsFound;
      targets := CollectFile(d, pkg, i, targets);
    }
    hide ClosedUnder;
    AllRootsFound(d, pkg, targets);
    forall m | Needed(d, pkg, m) ensures m in targets {
      ClosedHasNeeded(d, pkg, targets, m);
    }
  }

  lemma AllRootsFound(d: Descriptors, pkg: string, s: set<Id>)
    requires d.Closed() && RootsFound(d, pkg, s, |d.files|)
    ensures forall r :: IsRoot(d, pkg, r) ==> r in s
  {
  }

  lemma RootsPending(d: Descriptors, pkg: string, found: set<Id>, more: set<Id>, queue: seq<Id>)
    requires ClosedUnder(d, pkg, found, found) && found <= more
    requires forall m :: m in more && m !in found ==> m in queue
    ensures ClosedUnder(d, pkg, more, Expanded(more, queue))
  {
    assert Expanded(more, queue) <= found;
  }
}
