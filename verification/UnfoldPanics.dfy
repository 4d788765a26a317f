/** Exactly when a recursive map stops the generator. An entry type that is met again while it is being
    unfolded has no "key" property to test, and the generator panics. As the root type is never on the path,
    this happens precisely when a map field of the root leads back to the root. */
module UnfoldPanics {
  import opened Wrappers
  import opened SchemaUnfold
  import opened UnfoldLaws

  /** The descriptor of a map entry belongs to its one map field; it is no metadata type. */
  ghost predicate EntriesOwned(g: Graph)
    requires g.Closed()
  {
    && (forall m, i: nat, entry, n, j: nat ::
          IsMapField(g, m, i, entry) && n in g.messages && j < |g.messages[n]|
            && g.messages[n][j].typ == Message(entry) ==>
          m == n && i == j)
    && (forall m, i: nat, entry :: IsMapField(g, m, i, entry) ==> entry !in g.meta)
  }

  predicate Edge(g: Graph, a: Name, b: Name) {
    a in g.messages && exists i :: 0 <= i < |g.messages[a]| && g.messages[a][i].typ == Message(b)
  }

  /** A way from the first to the last type through fields. */
  predicate IsWay(g: Graph, p: seq<Name>) {
    && p != [] && (forall k :: 0 <= k < |p| ==> p[k] in g.messages)
    && forall k :: 0 <= k < |p| - 1 ==> Edge(g, p[k], p[k + 1])
  }

  ghost predicate Reaches(g: Graph, a: Name, b: Name) {
    exists p :: IsWay(g, p) && p[0] == a && p[|p| - 1] == b
  }

  predicate IsMapField(g: Graph, m: Name, i: nat, entry: Name) {
    m in g.messages && i < |g.messages[m]| && g.messages[m][i].shape.MapEntries?
      && g.messages[m][i].typ == Message(entry)
  }

  /** A map field of the root whose values lead back to the root. */
  ghost predicate RootLoop(g: Graph, root: Name) {
    exists i: nat, entry :: IsMapField(g, root, i, entry) && Reaches(g, entry, root)
  }

  // ---- A loop panics ----

  lemma {:induction false} FieldPanicSpreads(g: Graph, m: Name, isRoot: bool, path: set<Name>, i: nat,
                                             properties: map<string, Schema>, j: nat)
    requires g.Closed() && m in g.messages && i <= j < |g.messages[m]|
    requires ToShow(g, m, isRoot, j)
    requires FieldSchema(g, m, j, path).Panicked?
    ensures ParseFields(g, m, isRoot, path, i, properties).Panicked?
    decreases j - i
  {
    hide FieldSchema;
    if i < j {
      var f := g.messages[m][i];
      if Skipped(g, f, isRoot) {
        FieldPanicSpreads(g, m, isRoot, path, i + 1, properties, j);
      } else if FieldSchema(g, m, i, path).Done? {
        FieldPanicSpreads(g, m, isRoot, path, i + 1, properties[f.name := FieldSchema(g, m, i, path).value], j);
      }
    }
  }

  predicate Distinct(p: seq<Name>) {
    forall i, j :: 0 <= i < j < |p| ==> p[i] != p[j]
  }

  /** Cutting out the loops of a way. */
  lemma {:induction false} SimpleWay(g: Graph, p: seq<Name>) returns (q: seq<Name>)
    requires IsWay(g, p)
    ensures IsWay(g, q) && Distinct(q) && q[0] == p[0] && q[|q| - 1] == p[|p| - 1]
    decreases |p|
  {
    hide Edge;
    if Distinct(p) {
      q := p;
    } else {
      var i, j :| 0 <= i < j < |p| && p[i] == p[j];
      var r := p[..i] + p[j..];
      CutWay(g, p, i, j);
      q := SimpleWay(g, r);
    }
  }

  lemma CutWay(g: Graph, p: seq<Name>, i: nat, j: nat)
    requires IsWay(g, p) && i < j < |p| && p[i] == p[j]
    ensures var r := p[..i] + p[j..]; IsWay(g, r) && r[0] == p[0] && r[|r| - 1] == p[|p| - 1]
  {
    hide Edge;
    var r := p[..i] + p[j..];
    forall k | 0 <= k < |r| - 1 ensures Edge(g, r[k], r[k + 1]) {
      if k < i {
        assert r[k] == p[k] && r[k + 1] == (if k + 1 < i then p[k + 1] else p[j]) == p[k + 1];
        assert Edge(g, p[k], p[k + 1]);
      } else {
        var l := k - i + j;
        assert r[k] == p[l] && r[k + 1] == p[l + 1];
        assert Edge(g, p[l], p[l + 1]);
      }
    }
  }

  /** Walking a simple way to the root with the root's own entry type on the path ends in a panic. */
  lemma {:induction false} WayPanics(g: Graph, root: Name, i: nat, entry: Name, path: set<Name>, p: seq<Name>)
    requires g.Closed() && IsMapField(g, root, i, entry) && entry in path
    requires IsWay(g, p) && Distinct(p) && p[|p| - 1] == root
    requires forall k :: 1 <= k < |p| ==> p[k] !in path
    ensures ParseMessage(g, p[0], false, path).Panicked?
    decreases |p|
  {
    if |p| == 1 {
      FieldPanicSpreads(g, root, false, path, 0, map[], i);
    } else {
      assert Edge(g, p[0], p[1]);
      var j :| 0 <= j < |g.messages[p[0]]| && g.messages[p[0]][j].typ == Message(p[1]);
      WayTail(g, p);
      WayPanics(g, root, i, entry, path + {p[1]}, p[1..]);
      FieldPanicSpreads(g, p[0], false, path, 0, map[], j);
    }
  }

  lemma WayTail(g: Graph, p: seq<Name>)
    requires IsWay(g, p) && Distinct(p) && |p| > 1
    ensures IsWay(g, p[1..]) && Distinct(p[1..])
    ensures forall k :: 1 <= k < |p[1..]| ==> p[1..][k] == p[k + 1] && p[1..][k] != p[1]
  {
    hide Edge;
    var q := p[1..];
    forall k | 0 <= k < |q| - 1 ensures Edge(g, q[k], q[k + 1]) {
      assert Edge(g, p[k + 1], p[k + 2]);
    }
  }

  lemma LoopPanics(g: Graph, root: Name)
    requires g.Closed() && root in g.messages && EntriesOwned(g) && RootLoop(g, root)
    ensures ParseRoot(g, root).Panicked?
  {
    var i: nat, entry :| IsMapField(g, root, i, entry) && Reaches(g, entry, root);
    var way :| IsWay(g, way) && way[0] == entry && way[|way| - 1] == root;
    var p := SimpleWay(g, way);
    WayPanics(g, root, i, entry, {entry}, p);
    assert {} + {entry} == {entry};
    hide IsWay, Distinct, Reaches, ParseFields;
    FieldPanicSpreads(g, root, true, {}, 0, map[], i);
  }

  // ---- Without a loop nothing panics ----

  lemma ReachesOn(g: Graph, a: Name, b: Name, c: Name)
    requires Reaches(g, a, b) && Edge(g, b, c) && c in g.messages
    ensures Reaches(g, a, c)
  {
    var p :| IsWay(g, p) && p[0] == a && p[|p| - 1] == b;
    var q := p + [c];
    assert IsWay(g, q) by {
      forall k | 0 <= k < |q| - 1 ensures Edge(g, q[k], q[k + 1]) {
        if k < |p| - 1 { assert Edge(g, p[k], p[k + 1]); }
      }
    }
    assert q[0] == a && q[|q| - 1] == c;
  }

  lemma ReachesItself(g: Graph, a: Name)
    requires a in g.messages
    ensures Reaches(g, a, a)
  {
    assert IsWay(g, [a]);
  }

  /** What holds while message m is being unfolded: the path leads to m; the owner of an entry type on the
      path is on it too, or is the root; only in the root can an own entry type be on the path. */
  ghost predicate Unfolding(g: Graph, root: Name, m: Name, isRoot: bool, path: set<Name>) {
    && (if isRoot then m == root && path == {} else m in path)
    && (forall t :: t in path ==> Reaches(g, t, m))
    && (forall o, j: nat, e :: IsMapField(g, o, j, e) && e in path ==> o in path || o == root)
    && (forall j: nat, e :: IsMapField(g, m, j, e) && e in path ==> m == root)
  }

  lemma Enter(g: Graph, root: Name, m: Name, isRoot: bool, path: set<Name>, i: nat, t: Name)
    requires WellFormed(g) && EntriesOwned(g) && m in g.messages && i < |g.messages[m]|
    requires Unfolding(g, root, m, isRoot, path)
    requires g.messages[m][i].typ == Message(t) && t !in path
    ensures t in g.messages && Unfolding(g, root, t, false, path + {t})
  {
    hide UniqueNames, AllSupported, IsEntry;
    assert Edge(g, m, t);
    forall u | u in path + {t} ensures Reaches(g, u, t) {
      if u == t { ReachesItself(g, t); } else { hide IsMapField; ReachesOn(g, u, m, t); }
    }
    hide Reaches, Edge;
    forall o, j: nat, e | IsMapField(g, o, j, e) && e in path + {t}
      ensures o in path + {t} || o == root
    {
      if e !in path {
        assert g.messages[o][j].typ == g.messages[m][i].typ;
      }
    }
    forall j: nat, e | IsMapField(g, t, j, e) && e in path + {t}
      ensures t == root
    {
      EntryIsNoMap(g, t, j);
    }
  }

  /** An entry type has no map field. */
  lemma EntryIsNoMap(g: Graph, t: Name, j: nat)
    requires WellFormed(g)
    ensures !IsMapField(g, t, j, t)
  {
  }

  lemma {:induction false} FieldIsDone(g: Graph, root: Name, m: Name, isRoot: bool, path: set<Name>, i: nat)
    requires WellFormed(g) && EntriesOwned(g) && m in g.messages && i < |g.messages[m]|
    requires Unfolding(g, root, m, isRoot, path) && !RootLoop(g, root)
    ensures FieldSchema(g, m, i, path).Done?
    decreases |g.messages.Keys - path|, |g.messages[m]| - i, 0
  {
    hide UniqueNames, Reaches, EntriesOwned;
    var f := g.messages[m][i];
    if f.typ.Message? {
      var t := f.typ.name;
      assert f.shape.MapEntries? ==> IsMapField(g, m, i, t);
      if t !in path {
        Enter(g, root, m, isRoot, path, i, t);
        TypesLeft(g, path, t);
        hide Unfolding;
        NothingPanics(g, root, t, false, path + {t}, 0, map[]);
        if f.shape.MapEntries? {
          PropertyOfField(g, t, false, path + {t}, 0, map[], 0);
        }
      }
    }
  }

  lemma {:induction false} NothingPanics(g: Graph, root: Name, m: Name, isRoot: bool, path: set<Name>, i: nat,
                                         properties: map<string, Schema>)
    requires WellFormed(g) && EntriesOwned(g) && m in g.messages && i <= |g.messages[m]|
    requires Unfolding(g, root, m, isRoot, path) && !RootLoop(g, root)
    ensures ParseFields(g, m, isRoot, path, i, properties).Done?
    decreases |g.messages.Keys - path|, |g.messages[m]| - i, 1
  {
    hide UniqueNames, Unfolding, MapsHaveEntries, AllSupported, EntriesOwned, FieldSchema;
    if i < |g.messages[m]| {
      var f := g.messages[m][i];
      if Skipped(g, f, isRoot) {
        NothingPanics(g, root, m, isRoot, path, i + 1, properties);
      } else {
        FieldIsDone(g, root, m, isRoot, path, i);
        NothingPanics(g, root, m, isRoot, path, i + 1, properties[f.name := FieldSchema(g, m, i, path).value]);
      }
    }
  }

  /** On a descriptor set with supported scalars and string-keyed maps, the generator panics if and only if
      a map field of the root message leads back to the root message. */
  lemma PanicsIffRootLoop(g: Graph, root: Name)
    requires WellFormed(g) && EntriesOwned(g) && root in g.messages
    ensures ParseRoot(g, root).Panicked? <==> RootLoop(g, root)
  {
    if RootLoop(g, root) {
      LoopPanics(g, root);
    } else {
      NothingPanics(g, root, root, true, {}, 0, map[]);
    }
  }

  /** message A { map<string, A> children = 1; } as the root. */
  const RECURSIVE_MAP := Graph(map[
    "A" := [Field("children", Message("A.ChildrenEntry"), MapEntries)],
    "A.ChildrenEntry" := [Field("key", Leaf("string"), Singular), Field("value", Message("A"), Singular)]], {})

  lemma RecursiveMapIsWellFormed()
    ensures WellFormed(RECURSIVE_MAP)
  {
  }

  lemma RecursiveMapPanics()
    ensures WellFormed(RECURSIVE_MAP) && ParseRoot(RECURSIVE_MAP, "A") == Panicked(MapKeyNotString("children"))
  {
    RecursiveMapIsWellFormed();
    hide UniqueNames, AllSupported, MapsHaveEntries;
    var g := RECURSIVE_MAP;
    assert FieldSchema(g, "A", 0, {"A.ChildrenEntry", "A"}) == Panicked(MapKeyNotString("children"));
    assert ParseFields(g, "A", false, {"A.ChildrenEntry", "A"}, 0, map[]) == Panicked(MapKeyNotString("children"));
    assert {"A.ChildrenEntry"} + {"A"} == {"A.ChildrenEntry", "A"};
    assert FieldSchema(g, "A.ChildrenEntry", 1, {"A.ChildrenEntry"}) == Panicked(MapKeyNotString("children"));
    assert ParseFields(g, "A.ChildrenEntry", false, {"A.ChildrenEntry"}, 1, map["key" := Plain("string")])
        == Panicked(MapKeyNotString("children"));
    assert {} + {"A.ChildrenEntry"} == {"A.ChildrenEntry"};
    assert FieldSchema(g, "A", 0, {}) == Panicked(MapKeyNotString("children"));
  }
}
