/** A value snapshot of a node subtree, and `Composite::accept` over it
    (src/node/composite.cpp). Children appear in ascending name order, the iteration order of
    the `std::map` that holds them; a leaf, a plain node and a schema node have no children,
    so accepting a visitor on them visits nothing. */
module Trees {
  import opened Wrappers

  datatype Tree = Tree(name: string, kids: seq<Tree>)

  /** Number of nodes in a subtree, itself included. */
  function Size(t: Tree): nat
    decreases t, 1
  {
    1 + KidsSize(t, 0)
  }

  function KidsSize(t: Tree, i: nat): nat
    decreases t, 0, |t.kids| - i
  {
    if i >= |t.kids| then 0 else Size(t.kids[i]) + KidsSize(t, i + 1)
  }

  /** `d` is a proper descendant of `t`. */
  predicate Within(d: Tree, t: Tree)
    decreases t
  {
    exists i :: 0 <= i < |t.kids| && (d == t.kids[i] || Within(d, t.kids[i]))
  }

  /** `d` is a proper descendant of one of `t.kids[i..]`, or one of them. */
  predicate WithinFrom(d: Tree, t: Tree, i: nat)
  {
    exists j :: i <= j < |t.kids| && (d == t.kids[j] || Within(d, t.kids[j]))
  }

  /** What `to_string2` appends for one name: nothing for "/", no separator before a name
      starting with `[`, otherwise "/" and the name. An empty name reads as '\0' at index 0,
      so it gets a separator. */
  function PathSegment(name: string): string
  {
    if name == "/" then "" else if name != [] && name[0] == '[' then name else "/" + name
  }

  /** What a visitor is shown: the node, its parent's name and its path. */
  datatype Visited = Visited(node: Tree, parentName: string, path: string)

  /** A visitor: new visitor state, and whether the current level should go on. */
  type Visitor<!S> = (S, Visited) -> (S, bool)

  /** `t.accept(visitor)` starting with state `s`, where `path` is the path of `t`. */
  function Accept<S>(t: Tree, path: string, s: S, visit: Visitor<S>): S
    decreases t, 1
  {
    AcceptFrom(t, 0, path, s, visit)
  }

  /** The loop of `Composite::accept` from the `i`-th child on: visit the child; stop this
      level if the visitor says so, else descend into the child and go on. */
  function AcceptFrom<S>(t: Tree, i: nat, path: string, s: S, visit: Visitor<S>): S
    decreases t, 0, |t.kids| - i
  {
    if i >= |t.kids| then s
    else
      var kid := t.kids[i];
      var kidPath := path + PathSegment(kid.name);
      var (s1, go) := visit(s, Visited(kid, t.name, kidPath));
      if !go then s1 else AcceptFrom(t, i + 1, path, Accept(kid, kidPath, s1, visit), visit)
  }

  /** `Composite::accept` as a loop over the children with recursion into each. */
  method AcceptLoop<S>(t: Tree, path: string, s: S, visit: Visitor<S>) returns (r: S)
    ensures r == Accept(t, path, s, visit)
    decreases t
  {
    r := s;
    var i := 0;
    while i < |t.kids|
      invariant 0 <= i <= |t.kids|
      invariant Accept(t, path, s, visit) == AcceptFrom(t, i, path, r, visit)
    {
      var kid := t.kids[i];
      var kidPath := path + PathSegment(kid.name);
      var (s1, go) := visit(r, Visited(kid, t.name, kidPath));
      if !go {
        return s1;
      }
      r := AcceptLoop(kid, kidPath, s1, visit);
      i := i + 1;
    }
  }

  /** The records a walk of the children of `t` from the `i`-th on can show its visitor: each
      child, with `t`'s name as parent name and the child's path, then the records of the
      child's own walk. A visitor that never stops is shown all of them. */
  function VisitsFrom(t: Tree, i: nat, path: string): set<Visited>
    decreases t, 0, |t.kids| - i
  {
    if i >= |t.kids| then {}
    else
      var kid := t.kids[i];
      var kidPath := path + PathSegment(kid.name);
      {Visited(kid, t.name, kidPath)} + VisitsFrom(kid, 0, kidPath) + VisitsFrom(t, i + 1, path)
  }

  /** The nodes below `t` as a walk of `t` shows them. */
  function Visits(t: Tree, path: string): set<Visited>
  {
    VisitsFrom(t, 0, path)
  }

  /** A property of the visitor state that every visit of a record of the walk preserves holds
      after `accept`. */
  lemma {:induction false} AcceptFromPreserves<S>(t: Tree, i: nat, path: string, s: S, visit: Visitor<S>, inv: S -> bool)
    requires inv(s)
    requires forall s': S, v: Visited :: inv(s') && v in VisitsFrom(t, i, path) ==> inv(visit(s', v).0)
    ensures inv(AcceptFrom(t, i, path, s, visit))
    decreases t, |t.kids| - i
  {
    if i < |t.kids| {
      var kid := t.kids[i];
      var kidPath := path + PathSegment(kid.name);
      assert Visited(kid, t.name, kidPath) in VisitsFrom(t, i, path);
      var (s1, go) := visit(s, Visited(kid, t.name, kidPath));
      if go {
        AcceptFromPreserves(kid, 0, kidPath, s1, visit, inv);
        AcceptFromPreserves(t, i + 1, path, Accept(kid, kidPath, s1, visit), visit, inv);
      }
    }
  }

  lemma AcceptPreserves<S>(t: Tree, path: string, s: S, visit: Visitor<S>, inv: S -> bool)
    requires inv(s)
    requires forall s': S, v: Visited :: inv(s') && v in Visits(t, path) ==> inv(visit(s', v).0)
    ensures inv(Accept(t, path, s, visit))
  {
    AcceptFromPreserves(t, 0, path, s, visit, inv);
  }

  /** For a visitor that never stops a level, a property that the visit of one record of the
      walk establishes, and that every visit keeps, holds after `accept`. */
  lemma {:induction false} AcceptFromReaches<S>(t: Tree, i: nat, path: string, s: S, visit: Visitor<S>,
                                                goal: S -> bool, w: Visited)
    requires forall s': S, v: Visited :: visit(s', v).1
    requires w in VisitsFrom(t, i, path)
    requires forall s': S :: goal(visit(s', w).0)
    requires forall s': S, v: Visited :: goal(s') ==> goal(visit(s', v).0)
    ensures goal(AcceptFrom(t, i, path, s, visit))
    decreases t, |t.kids| - i
  {
    var kid := t.kids[i];
    var kidPath := path + PathSegment(kid.name);
    var s1 := visit(s, Visited(kid, t.name, kidPath)).0;
    var s2 := Accept(kid, kidPath, s1, visit);
    assert AcceptFrom(t, i, path, s, visit) == AcceptFrom(t, i + 1, path, s2, visit);
    if w in VisitsFrom(t, i + 1, path) {
      AcceptFromReaches(t, i + 1, path, s2, visit, goal, w);
    } else {
      if w == Visited(kid, t.name, kidPath) {
        AcceptFromPreserves(kid, 0, kidPath, s1, visit, goal);
      } else {
        AcceptFromReaches(kid, 0, kidPath, s1, visit, goal, w);
      }
      AcceptFromPreserves(t, i + 1, path, s2, visit, goal);
    }
  }

  lemma AcceptReaches<S>(t: Tree, path: string, s: S, visit: Visitor<S>, goal: S -> bool, w: Visited)
    requires forall s': S, v: Visited :: visit(s', v).1
    requires w in Visits(t, path)
    requires forall s': S :: goal(visit(s', w).0)
    requires forall s': S, v: Visited :: goal(s') ==> goal(visit(s', v).0)
    ensures goal(Accept(t, path, s, visit))
  {
    AcceptFromReaches(t, 0, path, s, visit, goal, w);
  }

  /** A node without children never calls the visitor (`Leaf::accept`, `Node::accept`). */
  lemma AcceptChildless<S>(t: Tree, path: string, s: S, visit: Visitor<S>)
    requires t.kids == []
    ensures Accept(t, path, s, visit) == s
  {
  }

  // ---------------------------------------------------------------------------------------
  // NodeFinder (src/xpath.cpp)
  // ---------------------------------------------------------------------------------------

  /** `NodeFinder::visit`: a node with the wanted name becomes the result and stops the level. */
  function FinderVisit(wanted: string): Visitor<Option<Tree>>
  {
    (s: Option<Tree>, v: Visited) => if v.node.name == wanted then (Some(v.node), false) else (s, true)
  }

  /** The finder's result after accepting it on `t` (it starts empty after `init`). */
  function Find(t: Tree, wanted: string): Option<Tree>
  {
    Accept(t, "", None, FinderVisit(wanted))
  }

  lemma {:induction false} FinderKeepsResult(t: Tree, i: nat, path: string, s: Option<Tree>, wanted: string)
    requires s.Some? ==> s.value.name == wanted
    ensures var r := AcceptFrom(t, i, path, s, FinderVisit(wanted));
      (s.Some? ==> r.Some?) && (r.Some? ==> r.value.name == wanted && (r == s || WithinFrom(r.value, t, i)))
    decreases t, |t.kids| - i
  {
    if i < |t.kids| {
      var kid := t.kids[i];
      var kidPath := path + PathSegment(kid.name);
      if kid.name != wanted {
        FinderKeepsResult(kid, 0, kidPath, s, wanted);
        var s2 := AcceptFrom(kid, 0, kidPath, s, FinderVisit(wanted));
        FinderKeepsResult(t, i + 1, path, s2, wanted);
        var r := AcceptFrom(t, i + 1, path, s2, FinderVisit(wanted));
        if r.Some? && r != s {
          if r == s2 {
            var j :| 0 <= j < |kid.kids| && (s2.value == kid.kids[j] || Within(s2.value, kid.kids[j]));
            assert Within(s2.value, kid);
            assert WithinFrom(r.value, t, i);
          } else {
            var j :| i + 1 <= j < |t.kids| && (r.value == t.kids[j] || Within(r.value, t.kids[j]));
            assert WithinFrom(r.value, t, i);
          }
        }
      }
    }
  }

  /** Whenever some child from the `i`-th on, or a descendant of one, has the wanted name, the
      finder ends with a result. */
  lemma {:induction false} FinderFindsPresent(t: Tree, i: nat, path: string, s: Option<Tree>, wanted: string, d: Tree)
    requires s.Some? ==> s.value.name == wanted
    requires d.name == wanted && WithinFrom(d, t, i)
    ensures AcceptFrom(t, i, path, s, FinderVisit(wanted)).Some?
    decreases t, |t.kids| - i
  {
    var j :| i <= j < |t.kids| && (d == t.kids[j] || Within(d, t.kids[j]));
    var kid := t.kids[i];
    var kidPath := path + PathSegment(kid.name);
    if kid.name != wanted {
      var s2 := AcceptFrom(kid, 0, kidPath, s, FinderVisit(wanted));
      if j == i {
        assert d != kid;
        var m :| 0 <= m < |kid.kids| && (d == kid.kids[m] || Within(d, kid.kids[m]));
        assert WithinFrom(d, kid, 0);
        FinderKeepsResult(kid, 0, kidPath, s, wanted);
        FinderFindsPresent(kid, 0, kidPath, s, wanted, d);
        FinderKeepsResult(t, i + 1, path, s2, wanted);
      } else {
        FinderKeepsResult(kid, 0, kidPath, s, wanted);
        FinderFindsPresent(t, i + 1, path, s2, wanted, d);
      }
    }
  }

  /** NodeFinder's result is a proper descendant with the wanted name, and there is a result
      exactly when such a descendant exists. */
  lemma FindSpec(t: Tree, wanted: string)
    ensures Find(t, wanted).Some? ==> Find(t, wanted).value.name == wanted && Within(Find(t, wanted).value, t)
    ensures Find(t, wanted).Some? <==> exists d: Tree :: d.name == wanted && Within(d, t)
  {
    FinderKeepsResult(t, 0, "", None, wanted);
    if exists d: Tree :: d.name == wanted && Within(d, t) {
      var d: Tree :| d.name == wanted && Within(d, t);
      FinderFindsPresent(t, 0, "", None, wanted, d);
    }
    if Find(t, wanted).Some? {
      var r := Find(t, wanted).value;
      var j :| 0 <= j < |t.kids| && (r == t.kids[j] || Within(r, t.kids[j]));
      assert Within(r, t);
    }
  }

  // ---------------------------------------------------------------------------------------
  // NodeCounter (src/xpath.cpp) and SubnodeChildsVisitor (src/node/visitor_spec.hpp)
  // ---------------------------------------------------------------------------------------

  /** `NodeCounter::visit`: counts every node and never stops. */
  function CounterVisit(): Visitor<nat>
  {
    (n: nat, v: Visited) => (n + 1, true)
  }

  lemma {:induction false} CounterCountsFrom(t: Tree, i: nat, path: string, n: nat)
    ensures AcceptFrom(t, i, path, n, CounterVisit()) == n + KidsSize(t, i)
    decreases t, |t.kids| - i
  {
    if i < |t.kids| {
      var kid := t.kids[i];
      var kidPath := path + PathSegment(kid.name);
      CounterCountsFrom(kid, 0, kidPath, n + 1);
      CounterCountsFrom(t, i + 1, path, n + 1 + KidsSize(kid, 0));
    }
  }

  /** A counter accepted on `t` counts the proper descendants of `t`. */
  lemma CounterCountsDescendants(t: Tree, path: string)
    ensures Accept(t, path, 0, CounterVisit()) == Size(t) - 1
  {
    CounterCountsFrom(t, 0, path, 0);
  }

  /** `SubnodeChildsVisitor::visit`: puts in front the name of every node whose parent has the
      given name, and never stops. */
  function SubnodeVisit(parentName: string): Visitor<seq<string>>
  {
    (names: seq<string>, v: Visited) =>
      (if v.parentName == parentName then [v.node.name] + names else names, true)
  }

  /** The names `SubnodeChildsVisitor` collects over a subtree, most recently visited first. */
  function SubnodeNames(t: Tree, parentName: string): seq<string>
  {
    Accept(t, "", [], SubnodeVisit(parentName))
  }

  /** One step of the collector's walk: the name is put in front when the parent matches. */
  lemma SubnodeStep(t: Tree, i: nat, path: string, names: seq<string>, parentName: string)
    requires i < |t.kids|
    ensures var kid := t.kids[i];
      var kidPath := path + PathSegment(kid.name);
      var n1 := if t.name == parentName then [kid.name] + names else names;
      AcceptFrom(t, i, path, names, SubnodeVisit(parentName))
        == AcceptFrom(t, i + 1, path, Accept(kid, kidPath, n1, SubnodeVisit(parentName)), SubnodeVisit(parentName))
  {
  }

  lemma {:induction false} SubnodeKeeps(t: Tree, i: nat, path: string, names: seq<string>, parentName: string, x: string)
    requires x in names
    ensures x in AcceptFrom(t, i, path, names, SubnodeVisit(parentName))
    decreases t, |t.kids| - i
  {
    if i < |t.kids| {
      var kid := t.kids[i];
      var kidPath := path + PathSegment(kid.name);
      var n1 := if t.name == parentName then [kid.name] + names else names;
      SubnodeStep(t, i, path, names, parentName);
      SubnodeKeeps(kid, 0, kidPath, n1, parentName, x);
      SubnodeKeeps(t, i + 1, path, Accept(kid, kidPath, n1, SubnodeVisit(parentName)), parentName, x);
    }
  }

  lemma {:induction false} SubnodeAdds(t: Tree, i: nat, path: string, names: seq<string>, j: nat)
    requires i <= j < |t.kids|
    ensures t.kids[j].name in AcceptFrom(t, i, path, names, SubnodeVisit(t.name))
    decreases |t.kids| - i
  {
    var kid := t.kids[i];
    var kidPath := path + PathSegment(kid.name);
    var n1 := [kid.name] + names;
    SubnodeStep(t, i, path, names, t.name);
    var n2 := Accept(kid, kidPath, n1, SubnodeVisit(t.name));
    if j == i {
      SubnodeKeeps(kid, 0, kidPath, n1, t.name, kid.name);
      SubnodeKeeps(t, i + 1, path, n2, t.name, kid.name);
    } else {
      SubnodeAdds(t, i + 1, path, n2, j);
    }
  }

  /** Every child of a node is among the names collected for that node's name. */
  lemma SubnodeNamesHasChildren(t: Tree)
    ensures forall j :: 0 <= j < |t.kids| ==> t.kids[j].name in SubnodeNames(t, t.name)
  {
    forall j | 0 <= j < |t.kids| ensures t.kids[j].name in SubnodeNames(t, t.name) {
      SubnodeAdds(t, 0, "", [], j);
    }
  }

  /** Independently of the visitor: the names of the proper descendants of `t` below its
      children from the `i`-th on whose parent is named `parentName`, the one a walk reaches
      last coming first. */
  function Collected(t: Tree, i: nat, parentName: string): seq<string>
    decreases t, |t.kids| - i
  {
    if i >= |t.kids| then []
    else
      Collected(t, i + 1, parentName) + Collected(t.kids[i], 0, parentName)
        + (if t.name == parentName then [t.kids[i].name] else [])
  }

  lemma {:induction false} SubnodeCollects(t: Tree, i: nat, path: string, names: seq<string>, parentName: string)
    ensures AcceptFrom(t, i, path, names, SubnodeVisit(parentName)) == Collected(t, i, parentName) + names
    decreases t, |t.kids| - i
  {
    if i < |t.kids| {
      var kid := t.kids[i];
      var kidPath := path + PathSegment(kid.name);
      var own := if t.name == parentName then [kid.name] else [];
      SubnodeStep(t, i, path, names, parentName);
      SubnodeCollects(kid, 0, kidPath, own + names, parentName);
      var n2 := Accept(kid, kidPath, own + names, SubnodeVisit(parentName));
      SubnodeCollects(t, i + 1, path, n2, parentName);
      var later := Collected(t, i + 1, parentName);
      var below := Collected(kid, 0, parentName);
      assert (if t.name == parentName then [kid.name] + names else names) == own + names;
      assert Collected(t, i, parentName) == later + below + own;
      assert later + (below + (own + names)) == (later + below + own) + names;
    }
  }

  /** `SubnodeChildsVisitor` collects exactly the names of the nodes below `t` whose parent is
      named `parentName`, every descendant and not only the children, the last one reached
      first. */
  lemma SubnodeNamesSpec(t: Tree, parentName: string)
    ensures SubnodeNames(t, parentName) == Collected(t, 0, parentName)
  {
    SubnodeCollects(t, 0, "", [], parentName);
  }

  /** A child, and everything below it, is below its parent. */
  lemma WithinChild(t: Tree, i: nat)
    requires i < |t.kids|
    ensures Within(t.kids[i], t)
    ensures forall d :: Within(d, t.kids[i]) ==> Within(d, t)
  {
  }

  lemma {:induction false} NoneCollected(u: Tree, i: nat, parentName: string)
    requires u.name != parentName
    requires forall d :: Within(d, u) ==> d.name != parentName
    ensures Collected(u, i, parentName) == []
    decreases u, |u.kids| - i
  {
    if i < |u.kids| {
      var kid := u.kids[i];
      WithinChild(u, i);
      NoneCollected(kid, 0, parentName);
      NoneCollected(u, i + 1, parentName);
    }
  }

  /** The names of the children of `t` from the `i`-th on, the last child first. */
  function KidNamesBack(t: Tree, i: nat): (r: seq<string>)
    requires i <= |t.kids|
    ensures |r| == |t.kids| - i
    ensures forall j :: 0 <= j < |r| ==> r[j] == t.kids[|t.kids| - 1 - j].name
    decreases |t.kids| - i
  {
    if i == |t.kids| then [] else KidNamesBack(t, i + 1) + [t.kids[i].name]
  }

  lemma {:induction false} ChildrenCollected(t: Tree, i: nat)
    requires i <= |t.kids|
    requires forall d :: Within(d, t) ==> d.name != t.name
    ensures Collected(t, i, t.name) == KidNamesBack(t, i)
    decreases |t.kids| - i
  {
    if i < |t.kids| {
      WithinChild(t, i);
      NoneCollected(t.kids[i], 0, t.name);
      ChildrenCollected(t, i + 1);
    }
  }

  /** When no node below `t` carries `t`'s own name, the collector finds exactly the children
      of `t`, the last child first, so it counts them. */
  lemma SubnodeNamesOfChildren(t: Tree)
    requires forall d :: Within(d, t) ==> d.name != t.name
    ensures |SubnodeNames(t, t.name)| == |t.kids|
    ensures forall j :: 0 <= j < |t.kids| ==> SubnodeNames(t, t.name)[j] == t.kids[|t.kids| - 1 - j].name
  {
    SubnodeNamesSpec(t, t.name);
    ChildrenCollected(t, 0);
  }
}
