/** The configuration tree's nodes (src/node/node.cpp, src/node/composite.cpp,
    src/node/leaf.cpp). One class stands for the C++ hierarchy: `kind` says which of `Node`,
    `Composite`, `Leaf`, `SchemaNode` or `SchemaComposite` a node was built as, and
    `observer` whether its dynamic type also implements `IObserver`. */
module Nodes {
  import opened Strings
  import opened Trees
  import Values

  datatype Kind = PlainNode | CompositeNode | LeafNode | SchemaNode | SchemaCompositeNode

  class Node {
    const name: string
    const kind: Kind
    const observer: bool
    var parent: Node?
    var schemaNode: Node?
    /** `m_node_by_name` of a composite. */
    var children: map<string, Node>
    /** `m_value` of a leaf. */
    var value: Values.Value?
    /** `m_attr_by_name` of a schema node. */
    var attrs: map<string, string>

    predicate IsComposite()
    {
      kind == CompositeNode || kind == SchemaCompositeNode
    }

    predicate IsSchema()
    {
      kind == SchemaNode || kind == SchemaCompositeNode
    }

    /** Any node but a leaf: no children and no attributes yet. */
    constructor (name: string, kind: Kind, observer: bool, parent: Node?, schemaNode: Node?)
      requires kind != LeafNode
      ensures this.name == name && this.kind == kind && this.observer == observer
      ensures this.parent == parent && this.schemaNode == schemaNode
      ensures children == map[] && attrs == map[] && value == null
    {
      this.name := name;
      this.kind := kind;
      this.observer := observer;
      this.parent := parent;
      this.schemaNode := schemaNode;
      children := map[];
      value := null;
      attrs := map[];
    }

    /** `Leaf(name, value, parent, schema_node)`: the leaf keeps its own copy of the value. */
    constructor Leaf(name: string, v: Values.Value, parent: Node?, schemaNode: Node?)
      ensures this.name == name && kind == LeafNode && !observer
      ensures this.parent == parent && this.schemaNode == schemaNode
      ensures children == map[] && attrs == map[]
      ensures value != null && fresh(value) && value.declared == v.declared && value.held == v.held
    {
      this.name := name;
      kind := LeafNode;
      observer := false;
      this.parent := parent;
      this.schemaNode := schemaNode;
      children := map[];
      value := new Values.Value.Copy(v);
      attrs := map[];
    }

    // -------------------------------------------------------------------------------------
    // Node
    // -------------------------------------------------------------------------------------

    /** `setParent` overwrites the parent link and nothing else; `getParent` reads it back. */
    method SetParent(p: Node?)
      modifies this`parent
      ensures GetParent() == p
    {
      parent := p;
    }

    function GetParent(): Node?
      reads this
    {
      parent
    }

    // -------------------------------------------------------------------------------------
    // Composite
    // -------------------------------------------------------------------------------------

    /** `Composite::add`: inserts or overwrites the child under its name and becomes its
        parent; it always succeeds. A child it replaces keeps its parent link. */
    method Add(node: Node) returns (ok: bool)
      requires IsComposite()
      modifies this`children, node`parent
      ensures ok
      ensures children == old(children)[node.name := node]
      ensures node.parent == this
      ensures FindNode(node.name) == node
      ensures Count() == if node.name in old(children) then old(Count()) else old(Count()) + 1
    {
      children := children[node.name := node];
      node.parent := this;
      ok := true;
      assert children.Keys == old(children).Keys + {node.name};
    }

    /** `Composite::remove`: an absent name changes nothing; a present child loses its parent
        link and its entry, and every other child stays. */
    method Remove(childName: string) returns (ok: bool)
      requires IsComposite()
      modifies this`children, children.Values
      ensures ok <==> childName in old(children)
      ensures !ok ==> children == old(children) && unchanged(old(children.Values))
      ensures ok ==> children == old(children) - {childName} && old(children)[childName].parent == null
      ensures ok ==> FindNode(childName) == null && Count() == old(Count()) - 1
      ensures forall c :: (c in old(children.Values) && (!ok || c != old(children)[childName])
        ==> c.parent == old(c.parent))
    {
      if childName !in children {
        return false;
      }
      var child := children[childName];
      child.parent := null;
      children := children - {childName};
      ok := true;
      assert old(children).Keys == children.Keys + {childName};
    }

    /** `Composite::findNode`: the child with that name, or null when there is none. */
    function FindNode(childName: string): (r: Node?)
      reads this
      ensures r == null <==> childName !in children
      ensures r != null ==> r == children[childName]
    {
      if childName in children then children[childName] else null
    }

    /** `Composite::count`: the number of distinct child names. */
    function Count(): (r: nat)
      reads this
      ensures r == |children.Keys|
    {
      |children|
    }

    // -------------------------------------------------------------------------------------
    // Leaf
    // -------------------------------------------------------------------------------------

    /** `Leaf::setValue`: the leaf now holds a copy of `v`. */
    method SetValue(v: Values.Value)
      requires kind == LeafNode
      modifies this`value
      ensures value != null && fresh(value) && value.declared == v.declared && value.held == v.held
    {
      value := new Values.Value.Copy(v);
    }

    /** `Leaf::getValue`: a copy of the held value, with its declared type and content. */
    method GetValue() returns (r: Values.Value)
      requires kind == LeafNode && value != null
      ensures fresh(r) && r.declared == value.declared && r.held == value.held
    {
      r := new Values.Value.Copy(value);
    }

    // -------------------------------------------------------------------------------------
    // SchemaNode
    // -------------------------------------------------------------------------------------

    /** `SchemaNode::addAttr`: sets or overwrites one attribute, leaving the others alone. */
    method AddAttr(attrName: string, attrValue: string)
      requires IsSchema()
      modifies this`attrs
      ensures FindAttr(attrName) == attrValue
      ensures attrs.Keys == old(attrs).Keys + {attrName}
      ensures forall a :: a in old(attrs) && a != attrName ==> attrs[a] == old(attrs)[a]
    {
      attrs := attrs[attrName := attrValue];
    }

    /** `SchemaNode::findAttr`: the attribute's value, or "" when it was never added. */
    function FindAttr(attrName: string): (r: string)
      reads this
      ensures attrName !in attrs ==> r == ""
      ensures attrName in attrs ==> r == attrs[attrName]
    {
      if attrName in attrs then attrs[attrName] else ""
    }

    // -------------------------------------------------------------------------------------
    // makeCopy
    // -------------------------------------------------------------------------------------

    /** `makeCopy`, dispatched on the kind of node as the virtual call is. A leaf becomes a
        new leaf with a copy of its value; a composite (also a schema composite) becomes a
        plain composite whose children are copied recursively with the copy as their parent.
        The copy's parent is `p` when it is non-null, else the original's parent; the schema
        node is shared. `nodes` bounds the original subtree, `h` its height, and `copies` is
        the new subtree, whose snapshot equals the original's. */
    method MakeCopy(p: Node?, ghost h: nat, ghost nodes: set<Node>) returns (copy: Node, ghost copies: set<Node>)
      requires Copyable(this, h, nodes) && Bounded(this, h, nodes)
      modifies {}
      ensures fresh(copy) && copy in copies && fresh(copies)
      ensures copy.name == name && copy.kind == (if kind == LeafNode then LeafNode else CompositeNode)
      ensures copy.parent == (if p != null then p else parent)
      ensures copy.schemaNode == schemaNode
      ensures kind == LeafNode ==> (copy.value != null && fresh(copy.value)
        && copy.value.declared == value.declared && copy.value.held == value.held)
      ensures copy.children.Keys == if kind == LeafNode then {} else children.Keys
      ensures forall k :: k in copy.children ==> copy.children[k].parent == copy
      ensures ShowsAs(copy, copies, h, old(Snapshot(this, h, nodes)))
      decreases h, 2
    {
      if kind == LeafNode {
        copy, copies := LeafCopy(p, h, nodes);
      } else {
        copy, copies := CompositeCopy(p, h, nodes);
      }
    }

    /** `Leaf::makeCopy`: a new leaf with the same name, a copy of the value and the same
        schema node. */
    method LeafCopy(p: Node?, ghost h: nat, ghost nodes: set<Node>) returns (copy: Node, ghost copies: set<Node>)
      requires kind == LeafNode && Copyable(this, h, nodes) && Bounded(this, h, nodes)
      modifies {}
      ensures fresh(copy) && copies == {copy}
      ensures copy.name == name && copy.kind == LeafNode
      ensures copy.parent == (if p != null then p else parent)
      ensures copy.schemaNode == schemaNode
      ensures copy.value != null && fresh(copy.value)
      ensures copy.value.declared == value.declared && copy.value.held == value.held
      ensures copy.children == map[]
      ensures ShowsAs(copy, copies, h, old(Snapshot(this, h, nodes)))
      decreases h, 1
    {
      assert Snapshot(this, h, nodes) == Tree(name, []);
      copy := new Node.Leaf(name, value, if p != null then p else parent, schemaNode);
      copies := {copy};
      assert Snapshot(copy, h, copies) == Tree(name, []);
    }

    /** `Composite::makeCopy`: a new composite with the same name and schema node whose
        children, visited in ascending name order, are copied with the new node as parent. */
    method CompositeCopy(p: Node?, ghost h: nat, ghost nodes: set<Node>) returns (copy: Node, ghost copies: set<Node>)
      requires IsComposite() && Copyable(this, h, nodes) && Bounded(this, h, nodes)
      modifies {}
      ensures fresh(copy) && copy in copies && fresh(copies)
      ensures copy.name == name && copy.kind == CompositeNode
      ensures copy.parent == (if p != null then p else parent)
      ensures copy.schemaNode == schemaNode
      ensures copy.children.Keys == children.Keys
      ensures forall k :: k in copy.children ==> copy.children[k].parent == copy
      ensures ShowsAs(copy, copies, h, old(Snapshot(this, h, nodes)))
      decreases h, 1
    {
      ghost var want := map k | k in children :: Snapshot(children[k], h - 1, nodes);
      SnapshotByKids(this, h, nodes, want);
      forall k | k in children ensures CopyableAs(children[k], h - 1, nodes, want[k]) {
        CopyableBounded(children[k], h - 1, nodes);
      }
      copy := new Node(name, CompositeNode, false, if p != null then p else parent, schemaNode);
      var built;
      ghost var sets, kidCopies;
      built, sets, kidCopies := CopyChildren(children, copy, h - 1, nodes, want);
      copy.children := built;
      assert Copied(built, sets, kidCopies, copy, h - 1, want);
      copies := {copy} + kidCopies;
      assert copies - {copy} == kidCopies;
      CopyFinish(copy, sets, copies, h, want);
    }

  }

  /** The loop of `Composite::makeCopy`: copies every child of `kids`, in ascending name
      order, with `copy` as the parent of each copy, and returns the new child map. */
  method CopyChildren(kids: map<string, Node>, copy: Node, ghost h: nat, ghost nodes: set<Node>,
                      ghost want: map<string, Tree>)
    returns (built: map<string, Node>, ghost sets: map<string, set<Node>>, ghost copies: set<Node>)
    requires forall k :: k in kids ==> k in want && CopyableAs(kids[k], h, nodes, want[k])
    modifies {}
    ensures fresh(copies) && copy !in copies
    ensures built.Keys == kids.Keys
    ensures Copied(built, sets, copies, copy, h, want)
    decreases h, 5
  {
    var ks := OrderedKeys(kids.Keys);
    SortedKeysMembers(kids.Keys);
    built, sets, copies := CopyEach(kids, ks, copy, h, nodes, want);
  }

  /** Copies the children of `kids` named by `ks`, one after the other. */
  method CopyEach(kids: map<string, Node>, ks: seq<string>, copy: Node, ghost h: nat, ghost nodes: set<Node>,
                  ghost want: map<string, Tree>)
    returns (built: map<string, Node>, ghost sets: map<string, set<Node>>, ghost copies: set<Node>)
    requires forall k :: k in kids ==> k in want && CopyableAs(kids[k], h, nodes, want[k])
    requires forall k :: k in ks <==> k in kids
    modifies {}
    ensures fresh(copies) && copy !in copies
    ensures built.Keys == kids.Keys
    ensures Copied(built, sets, copies, copy, h, want)
    decreases h, 4
  {
    sets := map[];
    built := map[];
    copies := {};
    var i := 0;
    while i < |ks|
      invariant 0 <= i <= |ks|
      invariant fresh(copies) && copy !in copies && unchanged(nodes)
      invariant built.Keys <= kids.Keys
      invariant forall j :: 0 <= j < i ==> ks[j] in built
      invariant Copied(built, sets, copies, copy, h, want)
    {
      var k := ks[i];
      var c;
      ghost var cs;
      c, cs := CopyChild(kids[k], copy, h, nodes, want[k]);
      CopiedExtend(built, sets, copies, copy, h, want, k, c, cs);
      built := built[k := c];
      sets := sets[k := cs];
      copies := copies + cs;
      i := i + 1;
    }
  }

  /** `n` may be copied, and its subtree, bounded by `nodes`, reads as `t`. */
  ghost predicate CopyableAs(n: Node, h: nat, nodes: set<Node>, t: Tree)
    reads nodes
  {
    Copyable(n, h, nodes) && Bounded(n, h, nodes) && Snapshot(n, h, nodes) == t
  }

  /** One step of the loop of `Composite::makeCopy`: `n.makeCopy(copy)`. */
  method CopyChild(n: Node, copy: Node, ghost h: nat, ghost nodes: set<Node>, ghost want: Tree)
    returns (c: Node, ghost cs: set<Node>)
    requires CopyableAs(n, h, nodes, want)
    modifies {}
    ensures fresh(cs) && ChildCopy(c, cs, copy, h, want)
    decreases h, 3
  {
    c, cs := n.MakeCopy(copy, h, nodes);
  }

  /** Every copied child `built[k]` lies in `sets[k]`, a part of `copies` without `copy`, has
      `copy` as parent and reads as `want[k]`. */
  ghost predicate Copied(built: map<string, Node>, sets: map<string, set<Node>>, copies: set<Node>,
                         copy: Node, ch: nat, want: map<string, Tree>)
    reads copies
  {
    built.Keys == sets.Keys && sets.Keys <= want.Keys
    && forall k :: k in sets ==> (sets[k] <= copies && copy !in sets[k]
      && ChildCopy(built[k], sets[k], copy, ch, want[k]))
  }

  lemma CopiedExtend(built: map<string, Node>, sets: map<string, set<Node>>, copies: set<Node>,
                     copy: Node, ch: nat, want: map<string, Tree>, k: string, c: Node, cs: set<Node>)
    requires Copied(built, sets, copies, copy, ch, want)
    requires k in want && copy !in cs && ChildCopy(c, cs, copy, ch, want[k])
    ensures Copied(built[k := c], sets[k := cs], copies + cs, copy, ch, want)
  {
  }

  /** The subtree under `c` lies in `cs` and reads as `t`. */
  ghost predicate ShowsAs(c: Node, cs: set<Node>, h: nat, t: Tree)
    reads cs
  {
    Bounded(c, h, cs) && Snapshot(c, h, cs) == t
  }

  /** `c`, a member of `cs` whose parent is `parent`, reads as `t`. */
  ghost predicate ChildCopy(c: Node, cs: set<Node>, parent: Node, h: nat, t: Tree)
    reads cs
  {
    c in cs && c.parent == parent && ShowsAs(c, cs, h, t)
  }

  /** The trees `want` gives for the keys `ks`, in order. */
  function KidsOf(want: map<string, Tree>, ks: seq<string>): (r: seq<Tree>)
    requires forall k :: k in ks ==> k in want
    ensures |r| == |ks| && forall i :: 0 <= i < |ks| ==> r[i] == want[ks[i]]
  {
    if ks == [] then [] else [want[ks[0]]] + KidsOf(want, ks[1..])
  }

  /** The trees `want` gives for the keys in `keys`, in ascending key order. */
  ghost function SortedKidsOf(want: map<string, Tree>, keys: set<string>): seq<Tree>
    requires keys <= want.Keys
  {
    SortedKeysSpec(keys);
    KidsOf(want, SortedKeys(keys))
  }

  lemma {:induction false} SnapshotKidsByMap(n: Node, ks: seq<string>, h: nat, nodes: set<Node>, want: map<string, Tree>)
    requires Bounded(n, h, nodes) && forall k :: k in ks ==> k in n.children
    requires forall k :: k in n.children ==> k in want && Snapshot(n.children[k], h - 1, nodes) == want[k]
    ensures SnapshotKids(n, ks, h, nodes) == KidsOf(want, ks)
    decreases |ks|
  {
    if ks != [] {
      SnapshotKidsByMap(n, ks[1..], h, nodes, want);
    }
  }

  /** A composite reads as its name over the trees of its children, in ascending name order. */
  lemma SnapshotByKids(n: Node, h: nat, nodes: set<Node>, want: map<string, Tree>)
    requires Bounded(n, h, nodes) && n.IsComposite()
    requires forall k :: k in n.children ==> k in want && Snapshot(n.children[k], h - 1, nodes) == want[k]
    ensures n.children.Keys <= want.Keys
    ensures Snapshot(n, h, nodes) == Tree(n.name, SortedKidsOf(want, n.children.Keys))
  {
    SortedKeysSpec(n.children.Keys);
    SnapshotKidsByMap(n, SortedKeys(n.children.Keys), h, nodes, want);
  }

  /** A new composite whose children read as `want` says reads as its name over them. */
  lemma CopyFinish(copy: Node, sets: map<string, set<Node>>, copies: set<Node>, h: nat, want: map<string, Tree>)
    requires copy.IsComposite() && copy in copies && h > 0
    requires Copied(copy.children, sets, copies - {copy}, copy, h - 1, want)
    ensures ShowsAs(copy, copies, h, Tree(copy.name, SortedKidsOf(want, copy.children.Keys)))
    ensures forall k :: k in copy.children ==> copy.children[k].parent == copy
  {
    forall k | k in copy.children
      ensures Bounded(copy.children[k], h - 1, copies)
      ensures Snapshot(copy.children[k], h - 1, copies) == want[k]
    {
      BoundedGrows(copy.children[k], h - 1, sets[k], copies);
    }
    SnapshotByKids(copy, h, copies, want);
  }

  // ---------------------------------------------------------------------------------------
  // The value snapshot of a subtree
  // ---------------------------------------------------------------------------------------

  /** Every node of the subtree under `n` lies in `nodes`, at depth below `h`. */
  ghost predicate Bounded(n: Node, h: nat, nodes: set<Node>)
    reads nodes
    decreases h
  {
    n in nodes && h > 0
    && forall k :: k in n.children ==> Bounded(n.children[k], h - 1, nodes)
  }

  /** Every node of the subtree under `n` is a leaf holding a value or a composite, lies in
      `nodes`, at depth below `h`: the subtrees `makeCopy` is defined on here. */
  ghost predicate Copyable(n: Node, h: nat, nodes: set<Node>)
    reads nodes
    decreases h
  {
    n in nodes && h > 0
    && (n.kind == LeafNode || n.IsComposite()) && (n.kind == LeafNode ==> n.value != null)
    && forall k :: k in n.children ==> Copyable(n.children[k], h - 1, nodes)
  }

  lemma {:induction false} CopyableBounded(n: Node, h: nat, nodes: set<Node>)
    requires Copyable(n, h, nodes)
    ensures Bounded(n, h, nodes)
    decreases h
  {
    forall k | k in n.children ensures Bounded(n.children[k], h - 1, nodes) {
      CopyableBounded(n.children[k], h - 1, nodes);
    }
  }

  /** The subtree under `n` as a value: names, with the children of a composite in ascending
      name order. */
  ghost function Snapshot(n: Node, h: nat, nodes: set<Node>): Tree
    requires Bounded(n, h, nodes)
    reads nodes
    decreases h, 1
  {
    SortedKeysSpec(n.children.Keys);
    Tree(n.name, if n.IsComposite() then SnapshotKids(n, SortedKeys(n.children.Keys), h, nodes) else [])
  }

  ghost function SnapshotKids(n: Node, ks: seq<string>, h: nat, nodes: set<Node>): seq<Tree>
    requires Bounded(n, h, nodes) && forall k :: k in ks ==> k in n.children
    reads nodes
    decreases h, 0, |ks|
  {
    if ks == [] then [] else [Snapshot(n.children[ks[0]], h - 1, nodes)] + SnapshotKids(n, ks[1..], h, nodes)
  }

  /** A larger bounding set describes the same subtree. */
  lemma {:induction false} BoundedGrows(n: Node, h: nat, small: set<Node>, large: set<Node>)
    requires Bounded(n, h, small) && small <= large
    ensures Bounded(n, h, large) && Snapshot(n, h, large) == Snapshot(n, h, small)
    decreases h
  {
    forall k | k in n.children
      ensures Bounded(n.children[k], h - 1, large)
      ensures Snapshot(n.children[k], h - 1, large) == Snapshot(n.children[k], h - 1, small)
    {
      BoundedGrows(n.children[k], h - 1, small, large);
    }
    SortedKeysSpec(n.children.Keys);
    SnapshotKidsAgree(n, n, SortedKeys(n.children.Keys), h, large, small);
  }

  /** Two nodes whose children under the keys `ks` have equal snapshots have equal snapshot
      child lists. */
  lemma {:induction false} SnapshotKidsAgree(a: Node, b: Node, ks: seq<string>, h: nat, an: set<Node>, bn: set<Node>)
    requires Bounded(a, h, an) && Bounded(b, h, bn)
    requires forall k :: k in ks ==> k in a.children && k in b.children
    requires forall k :: k in ks ==>
      Snapshot(a.children[k], h - 1, an) == Snapshot(b.children[k], h - 1, bn)
    ensures SnapshotKids(a, ks, h, an) == SnapshotKids(b, ks, h, bn)
    decreases |ks|
  {
    if ks != [] {
      SnapshotKidsAgree(a, b, ks[1..], h, an, bn);
    }
  }
}
