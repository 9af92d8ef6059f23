/** `NodeDependencyManager::resolve` (src/nodes_ordering.cpp): collects the
    `update-dependencies` of every configured node's schema, resolves the wildcard (`/` then `*`) and
    key-selector (`[@key]`) dependencies against the configuration tree, and hands the
    resulting map to the topological sorter, whose ordered list is the answer.

    The configuration is a `Tree` snapshot walked with `Accept`; the schema lookups and the
    sorter (`run_update_op`, whose body is not available) are parameters. */
module Ordering {
  import opened Wrappers
  import opened Strings
  import opened Trees
  import XPath

  const Wildcard := "/*"
  const KeySelector := "[@key]"

  // ---------------------------------------------------------------------------------------
  // Splitting a dependency at its marker (the two resolver constructors)
  // ---------------------------------------------------------------------------------------

  /** `pre` is the text before the first `marker`; `post` is the text from one character past
      the marker's end when something follows the marker, else empty. Without a marker,
      `find` gives `npos` and the unsigned sum `npos + |marker|` wraps to `|marker| - 1`;
      `resolve` never builds a resolver for such a dependency. */
  function Split(dep: string, marker: string): (string, string)
    requires marker != ""
  {
    var pos := Strings.Find(dep, marker);
    if pos == -1 then
      (dep, if |marker| - 1 < |dep| then dep[|marker|..] else "")
    else
      (dep[..pos], if pos + |marker| < |dep| then dep[pos + |marker| + 1..] else "")
  }

  /** One resolved path: `pre`, a separator and the child name, then a separator and `post`
      when `post` is not empty. */
  function Expand(pre: string, child: string, post: string): string
  {
    pre + "/" + child + (if post != "" then "/" + post else "")
  }

  /** After a prefix that holds no earlier occurrence, the marker is found where it starts. */
  lemma FindAfterPrefix(dep: string, pre: string, marker: string)
    requires marker != "" && |pre| + |marker| <= |dep| && dep[..|pre| + |marker|] == pre + marker
    requires !Contains(pre + marker[..|marker| - 1], marker)
    ensures Strings.Find(dep, marker) == |pre|
  {
    var head := pre + marker[..|marker| - 1];
    assert head == dep[..|head|];
    assert dep[|pre|..|pre| + |marker|] == (pre + marker)[|pre|..];
    assert OccursAt(dep, marker, |pre|);
    var r := Strings.Find(dep, marker);
    if r != -1 && r < |pre| {
      assert r + |marker| <= |head|;
      var found, early := dep[r..r + |marker|], head[r..r + |marker|];
      forall j | 0 <= j < |marker| ensures found[j] == early[j] {
        assert head[r + j] == dep[..|head|][r + j];
      }
      assert found == early;
      ContainsWitness(head, marker, r);
    }
  }

  /** A dependency written as `pre`, the marker, a separator and `post` splits back into
      `pre` and `post`, provided the marker does not occur earlier; one that ends with the
      marker has an empty `post`. */
  lemma SplitRoundTrip(pre: string, marker: string, post: string)
    requires marker != "" && !Contains(pre + marker[..|marker| - 1], marker)
    ensures Split(pre + marker + "/" + post, marker) == (pre, post)
    ensures Split(pre + marker, marker) == (pre, "")
  {
    var d1 := pre + marker + "/" + post;
    assert d1[..|pre| + |marker|] == pre + marker;
    FindAfterPrefix(d1, pre, marker);
    assert d1[..|pre|] == pre && d1[|pre| + |marker| + 1..] == post;
    var d2 := pre + marker;
    assert d2[..|pre| + |marker|] == pre + marker;
    FindAfterPrefix(d2, pre, marker);
    assert d2[..|pre|] == pre;
  }

  /** A text that lacks the marker's last character does not contain the marker. */
  lemma LastCharAbsent(s: string, marker: string)
    requires marker != "" && marker[|marker| - 1] !in s
    ensures !Contains(s, marker)
  {
    forall i | 0 <= i ensures !OccursAt(s, marker, i) {
      if i + |marker| <= |s| { assert s[i..i + |marker|][|marker| - 1] == s[i + |marker| - 1]; }
    }
  }

  /** A wildcard followed by more path, as schemas write it. */
  lemma SplitWildcardExample()
    ensures Split("/vlan/*/id", Wildcard) == ("/vlan", "id")
  {
    var pre := "/vlan";
    assert Wildcard[..1] == "/";
    assert '*' !in pre + "/";
    LastCharAbsent(pre + "/", Wildcard);
    SplitRoundTrip(pre, Wildcard, "id");
    assert pre + Wildcard + "/" + "id" == "/vlan/*/id";
  }

  /** A wildcard that ends the dependency leaves an empty `post`. */
  lemma SplitTrailingWildcardExample()
    ensures Split("/vlan/*", Wildcard) == ("/vlan", "")
  {
    var pre := "/vlan";
    assert Wildcard[..1] == "/";
    assert '*' !in pre + "/";
    LastCharAbsent(pre + "/", Wildcard);
    SplitRoundTrip(pre, Wildcard, "");
    assert pre + Wildcard == "/vlan/*";
  }

  /** A key selector followed by more path. */
  lemma SplitKeySelectorExample()
    ensures Split("/vlan[@key]/id", KeySelector) == ("/vlan", "id")
  {
    var pre := "/vlan";
    assert KeySelector[..5] == "[@key";
    assert ']' !in pre + "[@key";
    LastCharAbsent(pre + "[@key", KeySelector);
    SplitRoundTrip(pre, KeySelector, "id");
    assert pre + KeySelector + "/" + "id" == "/vlan[@key]/id";
  }

  // ---------------------------------------------------------------------------------------
  // The two resolver visitors
  // ---------------------------------------------------------------------------------------

  /** A resolver's state: the tokens of `pre` still to match, and the resolved paths. */
  datatype Resolver = Resolver(tokens: seq<string>, result: seq<string>)

  /** The loop over the collected child names, each expansion put in front. */
  function Collect(pre: string, names: seq<string>, post: string, acc: seq<string>): seq<string>
    decreases |names|
  {
    if names == [] then acc else Collect(pre, names[1..], post, [Expand(pre, names[0], post)] + acc)
  }

  /** `visit` of both resolvers (they differ only in their marker): a node named like the next
      token consumes it; the node matching the last token has its children's names collected
      (`SubnodeChildsVisitor`), expanded into paths, and stops its level. */
  function ResolverVisit(pre: string, post: string): Visitor<Resolver>
  {
    (s: Resolver, v: Visited) =>
      if s.tokens == [] || v.node.name != s.tokens[0] then (s, true)
      else if |s.tokens| == 1 then
        (Resolver([], Collect(pre, SubnodeNames(v.node, v.node.name), post, s.result)), false)
      else (Resolver(s.tokens[1..], s.result), true)
  }

  /** `getResolvedXpath` after the resolver for `dep` has been accepted on the configuration. */
  function ResolveDep(config: Tree, dep: string, marker: string): seq<string>
    requires marker != ""
  {
    var (pre, post) := Split(dep, marker);
    Accept(config, "", Resolver(XPath.Tokens(pre), []), ResolverVisit(pre, post)).result
  }

  /** The paths the loop adds are one expansion per collected name, next to the paths already
      there. */
  lemma {:induction false} CollectContents(pre: string, names: seq<string>, post: string, acc: seq<string>)
    ensures forall r :: r in Collect(pre, names, post, acc) <==>
      r in acc || exists c :: c in names && r == Expand(pre, c, post)
    decreases |names|
  {
    if names != [] {
      var acc' := [Expand(pre, names[0], post)] + acc;
      CollectContents(pre, names[1..], post, acc');
      forall r ensures r in Collect(pre, names, post, acc) <==>
        r in acc || exists c :: c in names && r == Expand(pre, c, post)
      {
        if exists c :: c in names[1..] && r == Expand(pre, c, post) {
          var c :| c in names[1..] && r == Expand(pre, c, post);
          assert c in names;
        }
        if exists c :: c in names && r == Expand(pre, c, post) {
          var c :| c in names && r == Expand(pre, c, post);
          assert c == names[0] || c in names[1..];
        }
      }
    }
  }

  /** `c` is a name `SubnodeChildsVisitor` collects on a configured node named `last`. */
  ghost predicate CollectedOn(config: Tree, last: string, c: string)
  {
    exists v :: v in Visits(config, "") && v.node.name == last && c in SubnodeNames(v.node, last)
  }

  /** `r` is `dep` with its marker replaced by a name collected on a configured node named like
      the last token before the marker. */
  ghost predicate ExpandsTo(config: Tree, dep: string, marker: string, r: string)
    requires marker != ""
  {
    var (pre, post) := Split(dep, marker);
    var tokens := XPath.Tokens(pre);
    tokens != [] && exists c :: CollectedOn(config, tokens[|tokens| - 1], c) && r == Expand(pre, c, post)
  }

  /** What the resolver keeps while it walks: its tokens are what is left of those of `pre`,
      and each result so far is `pre`, a name collected on a configured node matching the last
      token, and `post`. */
  ghost predicate ResolverInv(config: Tree, pre: string, post: string, s: Resolver)
  {
    var all := XPath.Tokens(pre);
    |s.tokens| <= |all| && s.tokens == all[|all| - |s.tokens|..]
    && forall r :: r in s.result ==>
         all != [] && exists c :: CollectedOn(config, all[|all| - 1], c) && r == Expand(pre, c, post)
  }

  lemma ResolverStep(config: Tree, pre: string, post: string, s: Resolver, v: Visited)
    requires ResolverInv(config, pre, post, s) && v in Visits(config, "")
    ensures ResolverInv(config, pre, post, ResolverVisit(pre, post)(s, v).0)
  {
    var all := XPath.Tokens(pre);
    if s.tokens != [] && v.node.name == s.tokens[0] {
      if |s.tokens| == 1 {
        var last := all[|all| - 1];
        assert s.tokens[0] == last;
        var names := SubnodeNames(v.node, v.node.name);
        CollectContents(pre, names, post, s.result);
        forall r | r in Collect(pre, names, post, s.result)
          ensures exists c :: CollectedOn(config, last, c) && r == Expand(pre, c, post)
        {
          if r !in s.result {
            var c :| c in names && r == Expand(pre, c, post);
            assert CollectedOn(config, last, c);
          }
        }
      } else {
        assert s.tokens[1..] == all[|all| - |s.tokens| + 1..];
      }
    }
  }

  /** Every path a resolver produces is its `pre`, a name collected under a configured node
      that matches the last token of `pre`, and its `post`. */
  lemma ResolvedExpand(config: Tree, dep: string, marker: string)
    requires marker != ""
    ensures forall r :: r in ResolveDep(config, dep, marker) ==> ExpandsTo(config, dep, marker, r)
  {
    var (pre, post) := Split(dep, marker);
    var inv := (s: Resolver) => ResolverInv(config, pre, post, s);
    forall s: Resolver, v: Visited | inv(s) && v in Visits(config, "")
      ensures inv(ResolverVisit(pre, post)(s, v).0)
    {
      ResolverStep(config, pre, post, s, v);
    }
    assert inv(Resolver(XPath.Tokens(pre), []));
    AcceptPreserves(config, "", Resolver(XPath.Tokens(pre), []), ResolverVisit(pre, post), inv);
  }

  /** A dependency with nothing before its marker (such as `/` then `*` alone) has no token to match and
      resolves to nothing. */
  lemma NoTokensResolveNothing(config: Tree, dep: string, marker: string)
    requires marker != "" && XPath.Tokens(Split(dep, marker).0) == []
    ensures ResolveDep(config, dep, marker) == []
  {
    var (pre, post) := Split(dep, marker);
    var inv := (s: Resolver) => s == Resolver([], []);
    AcceptPreserves(config, "", Resolver([], []), ResolverVisit(pre, post), inv);
  }

  /** Accepting a resolver on the configuration. */
  method ResolveMarker(config: Tree, dep: string, marker: string) returns (resolved: seq<string>)
    requires marker != ""
    ensures resolved == ResolveDep(config, dep, marker)
  {
    var (pre, post) := Split(dep, marker);
    var tokens := XPath.Parse(pre);
    var resolver := AcceptLoop(config, "", Resolver(tokens, []), ResolverVisit(pre, post));
    resolved := resolver.result;
  }

  // ---------------------------------------------------------------------------------------
  // DependencyGetterVisitior2
  // ---------------------------------------------------------------------------------------

  /** What the getter learns about a configured node from its schema node: the schema node's
      own path and its `update-dependencies` values. */
  datatype SchemaInfo = SchemaInfo(path: string, deps: seq<string>)

  type DepMap = map<string, set<string>>

  /** `visit` of the getter on one node: no schema, nothing; no dependencies, an empty set
      unless the schema path is already a key; otherwise every dependency joins the schema
      path's set. */
  function GetterStep(m: DepMap, info: Option<SchemaInfo>): DepMap
  {
    match info
    case None => m
    case Some(i) =>
      if i.deps == [] then (if i.path in m then m else m[i.path := {}])
      else m[i.path := (if i.path in m then m[i.path] else {}) + (set d | d in i.deps)]
  }

  /** The getter never drops a key or a dependency, always records the schema path it met,
      and a node without dependencies never overwrites what is recorded. */
  lemma GetterStepSpec(m: DepMap, info: Option<SchemaInfo>)
    ensures m.Keys <= GetterStep(m, info).Keys
    ensures forall k :: k in m ==> m[k] <= GetterStep(m, info)[k]
    ensures info.Some? ==> (info.value.path in GetterStep(m, info)
      && (forall d :: d in info.value.deps ==> d in GetterStep(m, info)[info.value.path])
      && GetterStep(m, info).Keys == m.Keys + {info.value.path})
    ensures info.None? ==> GetterStep(m, info) == m
    ensures info.Some? && info.value.deps == [] && info.value.path in m ==> GetterStep(m, info) == m
    ensures forall k, d :: k in GetterStep(m, info) && d in GetterStep(m, info)[k] ==>
      (k in m && d in m[k]) || (info.Some? && k == info.value.path && d in info.value.deps)
  {
  }

  function GetterVisit(schemaOf: string -> Option<SchemaInfo>): Visitor<DepMap>
  {
    (m: DepMap, v: Visited) => (GetterStep(m, schemaOf(v.path)), true)
  }

  /** The getter's map after it has been accepted on the configuration. */
  function Dependencies(config: Tree, schemaOf: string -> Option<SchemaInfo>): DepMap
  {
    Accept(config, "", map[], GetterVisit(schemaOf))
  }

  /** Some schema node with path `k` lists `d` among its update dependencies. */
  ghost predicate Declares(schemaOf: string -> Option<SchemaInfo>, k: string, d: string)
  {
    exists x :: schemaOf(x).Some? && schemaOf(x).value.path == k && d in schemaOf(x).value.deps
  }

  /** The getter records only dependencies that schemas declare, under their own path. */
  lemma GetterSound(config: Tree, schemaOf: string -> Option<SchemaInfo>)
    ensures forall k, d :: k in Dependencies(config, schemaOf) && d in Dependencies(config, schemaOf)[k] ==>
      Declares(schemaOf, k, d)
  {
    var inv := (m: DepMap) => forall k, d :: k in m && d in m[k] ==> Declares(schemaOf, k, d);
    forall m: DepMap, v: Visited | inv(m) ensures inv(GetterVisit(schemaOf)(m, v).0) {
      GetterStepSpec(m, schemaOf(v.path));
      var r := GetterStep(m, schemaOf(v.path));
      forall k, d | k in r && d in r[k] ensures Declares(schemaOf, k, d) {
        if !(k in m && d in m[k]) {
          assert schemaOf(v.path).Some? && schemaOf(v.path).value.path == k && d in schemaOf(v.path).value.deps;
        }
      }
    }
    AcceptPreserves(config, "", map[], GetterVisit(schemaOf), inv);
  }

  /** Every configured node whose schema node is known has its schema path recorded, with
      each of its dependencies, and every recorded path is the schema path of such a node. */
  lemma GetterComplete(config: Tree, schemaOf: string -> Option<SchemaInfo>)
    ensures forall v :: v in Visits(config, "") && schemaOf(v.path).Some? ==>
      var info := schemaOf(v.path).value;
      info.path in Dependencies(config, schemaOf)
      && forall d :: d in info.deps ==> d in Dependencies(config, schemaOf)[info.path]
    ensures forall k :: k in Dependencies(config, schemaOf) ==>
      exists v :: v in Visits(config, "") && schemaOf(v.path).Some? && schemaOf(v.path).value.path == k
  {
    var visit := GetterVisit(schemaOf);
    forall v | v in Visits(config, "") && schemaOf(v.path).Some?
      ensures var info := schemaOf(v.path).value;
        info.path in Dependencies(config, schemaOf)
        && forall d :: d in info.deps ==> d in Dependencies(config, schemaOf)[info.path]
    {
      var info := schemaOf(v.path).value;
      var goal := (m: DepMap) => info.path in m && forall d :: d in info.deps ==> d in m[info.path];
      forall m: DepMap ensures goal(visit(m, v).0) {
        GetterStepSpec(m, schemaOf(v.path));
      }
      forall m: DepMap, w: Visited | goal(m) ensures goal(visit(m, w).0) {
        GetterStepSpec(m, schemaOf(w.path));
      }
      AcceptReaches(config, "", map[], visit, goal, v);
    }
    var inv := (m: DepMap) => forall k :: k in m ==>
      exists v :: v in Visits(config, "") && schemaOf(v.path).Some? && schemaOf(v.path).value.path == k;
    forall m: DepMap, v: Visited | inv(m) && v in Visits(config, "") ensures inv(visit(m, v).0) {
      GetterStepSpec(m, schemaOf(v.path));
    }
    AcceptPreserves(config, "", map[], visit, inv);
  }

  // ---------------------------------------------------------------------------------------
  // Assembling the map for the sorter
  // ---------------------------------------------------------------------------------------

  /** What one dependency contributes: the paths its marker resolves to, or the dependency
      itself when it has no marker or resolves to nothing. A wildcard dependency is never tried
      as a key selector. */
  function DepTargets(config: Tree, dep: string): set<string>
  {
    if Contains(dep, Wildcard) then
      var rs := ResolveDep(config, dep, Wildcard);
      if rs != [] then set r | r in rs else {dep}
    else if Contains(dep, KeySelector) then
      var rs := ResolveDep(config, dep, KeySelector);
      if rs != [] then set r | r in rs else {dep}
    else {dep}
  }

  function Resolved(config: Tree, ds: set<string>): set<string>
  {
    set d, r | d in ds && r in DepTargets(config, d) :: r
  }

  /** The merged map handed to `run_update_op`. */
  function Assemble(config: Tree, nr: DepMap): DepMap
  {
    map k | k in nr :: Resolved(config, nr[k])
  }

  /** Each contribution is the dependency kept verbatim, or the dependency with its marker
      replaced by a child name; a dependency without a marker is kept. */
  lemma DepTargetsSpec(config: Tree, dep: string)
    ensures !Contains(dep, Wildcard) && !Contains(dep, KeySelector) ==> DepTargets(config, dep) == {dep}
    ensures forall r :: r in DepTargets(config, dep) ==>
      r == dep
      || (Contains(dep, Wildcard) && ExpandsTo(config, dep, Wildcard, r))
      || (!Contains(dep, Wildcard) && Contains(dep, KeySelector) && ExpandsTo(config, dep, KeySelector, r))
    ensures DepTargets(config, dep) != {}
  {
    ResolvedExpand(config, dep, Wildcard);
    ResolvedExpand(config, dep, KeySelector);
    if Contains(dep, Wildcard) && ResolveDep(config, dep, Wildcard) != [] {
      assert ResolveDep(config, dep, Wildcard)[0] in DepTargets(config, dep);
    } else if !Contains(dep, Wildcard) && Contains(dep, KeySelector) && ResolveDep(config, dep, KeySelector) != [] {
      assert ResolveDep(config, dep, KeySelector)[0] in DepTargets(config, dep);
    }
  }

  /** The sorter sees every schema path the getter recorded, an empty set for one without
      dependencies, and for the others only declared dependencies or their resolutions. */
  lemma AssembleSpec(config: Tree, schemaOf: string -> Option<SchemaInfo>)
    ensures var nr := Dependencies(config, schemaOf);
      Assemble(config, nr).Keys == nr.Keys
      && (forall k :: k in nr ==> (Assemble(config, nr)[k] == {} <==> nr[k] == {}))
      && (forall k, r :: k in nr && r in Assemble(config, nr)[k] ==>
            exists d :: Declares(schemaOf, k, d) && (r == d || ExpandsTo(config, d, Wildcard, r) || ExpandsTo(config, d, KeySelector, r)))
  {
    var nr := Dependencies(config, schemaOf);
    GetterSound(config, schemaOf);
    forall k | k in nr ensures Assemble(config, nr)[k] == {} <==> nr[k] == {} {
      if nr[k] != {} {
        var d :| d in nr[k];
        DepTargetsSpec(config, d);
        var r :| r in DepTargets(config, d);
        assert r in Assemble(config, nr)[k];
      }
    }
    forall k, r | k in nr && r in Assemble(config, nr)[k]
      ensures exists d :: Declares(schemaOf, k, d) && (r == d || ExpandsTo(config, d, Wildcard, r) || ExpandsTo(config, d, KeySelector, r))
    {
      var d :| d in nr[k] && r in DepTargets(config, d);
      DepTargetsSpec(config, d);
    }
  }

  /** A key without dependencies keeps an empty set. */
  lemma ResolvedEmpty(config: Tree)
    ensures Resolved(config, {}) == {}
  {
  }

  /** Adding one dependency to a set. */
  lemma ResolvedAdd(config: Tree, ds: set<string>, d: string)
    ensures Resolved(config, ds + {d}) == Resolved(config, ds) + DepTargets(config, d)
  {
  }

  /** The body of the inner loop of `resolve` for one dependency. */
  method AddDependency(config: Tree, acc: set<string>, dep: string) returns (r: set<string>)
    ensures r == acc + DepTargets(config, dep)
  {
    var rs: seq<string> := [];
    if Contains(dep, Wildcard) {
      rs := ResolveMarker(config, dep, Wildcard);
    } else if Contains(dep, KeySelector) {
      rs := ResolveMarker(config, dep, KeySelector);
    }
    if rs == [] {
      return acc + {dep};
    }
    r := acc;
    var i := 0;
    while i < |rs|
      invariant 0 <= i <= |rs|
      invariant r == acc + set x | x in rs[..i]
    {
      assert rs[..i + 1] == rs[..i] + [rs[i]];
      r := r + {rs[i]};
      i := i + 1;
    }
    assert rs[..i] == rs;
  }

  /** The inner loop of `resolve` over one schema path's dependencies. */
  method CollectKey(config: Tree, ds: set<string>) returns (r: set<string>)
    ensures r == Resolved(config, ds)
  {
    r := {};
    var rest := ds;
    while rest != {}
      invariant rest <= ds
      invariant r == Resolved(config, ds - rest)
      decreases rest
    {
      var d :| d in rest;
      ResolvedAdd(config, ds - rest, d);
      assert ds - (rest - {d}) == (ds - rest) + {d};
      r := AddDependency(config, r, d);
      rest := rest - {d};
    }
  }

  /** The loop of `resolve` over the getter's map: a path with dependencies gets their
      contributions in `dependencies`, a path without any gets an empty set in
      `without_dependencies`. */
  method ResolveKeys(config: Tree, nr: DepMap) returns (dependencies: DepMap, without: DepMap)
    ensures dependencies == map k | k in nr && nr[k] != {} :: Resolved(config, nr[k])
    ensures without == map k | k in nr && nr[k] == {} :: {}
  {
    dependencies := map[];
    without := map[];
    var keys := nr.Keys;
    while keys != {}
      invariant keys <= nr.Keys
      invariant dependencies == map k | k in nr && k !in keys && nr[k] != {} :: Resolved(config, nr[k])
      invariant without == map k | k in nr && k !in keys && nr[k] == {} :: {}
      decreases keys
    {
      var k :| k in keys;
      if nr[k] == {} {
        without := without[k := {}];
      } else {
        var r := CollectKey(config, nr[k]);
        dependencies := dependencies[k := r];
      }
      keys := keys - {k};
    }
  }

  /** `std::map::insert` of a whole map: a key already present keeps its value, the others
      are added. */
  method InsertAbsent(dst: DepMap, src: DepMap) returns (r: DepMap)
    ensures r == map k | k in dst.Keys + src.Keys :: if k in dst then dst[k] else src[k]
  {
    r := dst;
    var pending := src.Keys;
    while pending != {}
      invariant pending <= src.Keys
      invariant r == map k | k in dst.Keys + (src.Keys - pending) :: if k in dst then dst[k] else src[k]
      decreases pending
    {
      var k :| k in pending;
      if k !in r {
        r := r[k := src[k]];
      }
      pending := pending - {k};
    }
  }

  /** The loop of `resolve` and the merge that inserts `without_dependencies` into
      `dependencies`: the map handed to the sorter. */
  method AssembleDependencies(config: Tree, nr: DepMap) returns (merged: DepMap)
    ensures merged == Assemble(config, nr)
  {
    var dependencies, without := ResolveKeys(config, nr);
    merged := InsertAbsent(dependencies, without);
    ResolvedEmpty(config);
  }

  /** `resolve`: walk the configuration with the getter, assemble the map, sort it and return
      the sorter's list. The sorter's own verdict is ignored: `resolve` always succeeds. */
  method Resolve(config: Tree, schemaOf: string -> Option<SchemaInfo>, sort: DepMap -> (bool, seq<string>))
    returns (ok: bool, ordered: seq<string>)
    ensures ok
    ensures ordered == sort(Assemble(config, Dependencies(config, schemaOf))).1
  {
    var notResolved := AcceptLoop(config, "", map[], GetterVisit(schemaOf));
    var dependencies := AssembleDependencies(config, notResolved);
    var (sortResult, orderedCmds) := sort(dependencies);
    ok, ordered := true, orderedCmds;
  }

  // ---------------------------------------------------------------------------------------
  // DependencyMapperVisitior
  // ---------------------------------------------------------------------------------------

  /** The path of a node's schema node and of that schema node's parent. */
  datatype SchemaPlace = SchemaPlace(path: string, parentPath: string)

  /** The mapper's two maps from schema paths to lists of configured nodes (by path). */
  datatype Mapping = Mapping(ordered: map<string, seq<string>>, unordered: map<string, seq<string>>)

  /** `visit` of the mapper on the node at `node`: a node whose schema path was sorted goes to
      the front of that path's list; otherwise, when its schema parent already has a list,
      to the back of that one; otherwise to the back of its own unordered list. */
  function MapperStep(s: Mapping, cmds: set<string>, node: string, place: Option<SchemaPlace>): Mapping
  {
    match place
    case None => s
    case Some(p) =>
      if p.path in cmds then
        s.(ordered := s.ordered[p.path := [node] + (if p.path in s.ordered then s.ordered[p.path] else [])])
      else if p.parentPath in s.ordered then
        s.(ordered := s.ordered[p.parentPath := s.ordered[p.parentPath] + [node]])
      else
        s.(unordered := s.unordered[p.path := (if p.path in s.unordered then s.unordered[p.path] else []) + [node]])
  }

  function MapperVisit(cmds: set<string>, placeOf: string -> Option<SchemaPlace>): Visitor<Mapping>
  {
    (s: Mapping, v: Visited) => (MapperStep(s, cmds, v.path, placeOf(v.path)), true)
  }

  /** The ordered lists are keyed only by sorted schema paths and the unordered ones only by
      unsorted paths. */
  predicate MapperKeys(s: Mapping, cmds: set<string>)
  {
    s.ordered.Keys <= cmds && s.unordered.Keys !! cmds
  }

  /** Each mapped node lands in exactly the list its classification names, and the key
      discipline is kept. */
  lemma MapperStepSpec(s: Mapping, cmds: set<string>, node: string, place: Option<SchemaPlace>)
    requires MapperKeys(s, cmds)
    ensures MapperKeys(MapperStep(s, cmds, node, place), cmds)
    ensures place.Some? && place.value.path in cmds ==>
      MapperStep(s, cmds, node, place).ordered[place.value.path][0] == node
    ensures place.Some? && place.value.path !in cmds && place.value.parentPath in s.ordered ==>
      var l := MapperStep(s, cmds, node, place).ordered[place.value.parentPath];
      |l| > 0 && l[|l| - 1] == node && l[..|l| - 1] == s.ordered[place.value.parentPath]
    ensures place.Some? && place.value.path !in cmds && place.value.parentPath !in s.ordered ==>
      var l := MapperStep(s, cmds, node, place).unordered[place.value.path];
      |l| > 0 && l[|l| - 1] == node
  {
    if place.Some? && place.value.path !in cmds && place.value.parentPath in s.ordered {
      var l := MapperStep(s, cmds, node, place).ordered[place.value.parentPath];
      assert l[..|l| - 1] == s.ordered[place.value.parentPath];
    }
  }

  /** The whole mapper walk keeps the key discipline. */
  lemma MapperWalkKeys(config: Tree, cmds: set<string>, placeOf: string -> Option<SchemaPlace>)
    ensures MapperKeys(Accept(config, "", Mapping(map[], map[]), MapperVisit(cmds, placeOf)), cmds)
  {
    var inv := (s: Mapping) => MapperKeys(s, cmds);
    forall s: Mapping, v: Visited | inv(s) ensures inv(MapperVisit(cmds, placeOf)(s, v).0) {
      MapperStepSpec(s, cmds, v.path, placeOf(v.path));
    }
    AcceptPreserves(config, "", Mapping(map[], map[]), MapperVisit(cmds, placeOf), inv);
  }

  /** The node at `p` sits in one of the mapper's lists. */
  ghost predicate Placed(s: Mapping, p: string)
  {
    (exists k :: k in s.ordered && p in s.ordered[k]) || (exists k :: k in s.unordered && p in s.unordered[k])
  }

  /** A step keeps every node already placed, places the visited node when its schema node is
      known, and places nothing else. */
  lemma MapperStepPlaces(s: Mapping, cmds: set<string>, node: string, place: Option<SchemaPlace>, p: string)
    ensures Placed(s, p) ==> Placed(MapperStep(s, cmds, node, place), p)
    ensures place.Some? ==> Placed(MapperStep(s, cmds, node, place), node)
    ensures Placed(MapperStep(s, cmds, node, place), p) ==> Placed(s, p) || (place.Some? && p == node)
  {
    var t := MapperStep(s, cmds, node, place);
    if place.Some? {
      var q := place.value;
      if q.path in cmds {
        assert node in t.ordered[q.path];
      } else if q.parentPath in s.ordered {
        assert node in t.ordered[q.parentPath];
      } else {
        assert node in t.unordered[q.path];
      }
      if Placed(s, p) {
        if exists k :: k in s.ordered && p in s.ordered[k] {
          var k :| k in s.ordered && p in s.ordered[k];
          assert k in t.ordered && p in t.ordered[k];
        } else {
          var k :| k in s.unordered && p in s.unordered[k];
          assert k in t.unordered && p in t.unordered[k];
        }
      }
      if Placed(t, p) && p != node {
        if exists k :: k in t.ordered && p in t.ordered[k] {
          var k :| k in t.ordered && p in t.ordered[k];
          assert k in s.ordered && p in s.ordered[k];
        } else {
          var k :| k in t.unordered && p in t.unordered[k];
          assert k in s.unordered && p in s.unordered[k];
        }
      }
    }
  }

  /** After the walk, a configured node sits in some list exactly when its schema node is
      known, and nothing else does. */
  lemma MapperWalkPlaces(config: Tree, cmds: set<string>, placeOf: string -> Option<SchemaPlace>)
    ensures forall v :: v in Visits(config, "") && placeOf(v.path).Some? ==>
      Placed(Accept(config, "", Mapping(map[], map[]), MapperVisit(cmds, placeOf)), v.path)
    ensures forall p :: Placed(Accept(config, "", Mapping(map[], map[]), MapperVisit(cmds, placeOf)), p) ==>
      placeOf(p).Some? && exists v :: v in Visits(config, "") && v.path == p
  {
    var visit := MapperVisit(cmds, placeOf);
    forall v | v in Visits(config, "") && placeOf(v.path).Some?
      ensures Placed(Accept(config, "", Mapping(map[], map[]), visit), v.path)
    {
      var goal := (m: Mapping) => Placed(m, v.path);
      forall m: Mapping ensures goal(visit(m, v).0) {
        MapperStepPlaces(m, cmds, v.path, placeOf(v.path), v.path);
      }
      forall m: Mapping, w: Visited | goal(m) ensures goal(visit(m, w).0) {
        MapperStepPlaces(m, cmds, w.path, placeOf(w.path), v.path);
      }
      AcceptReaches(config, "", Mapping(map[], map[]), visit, goal, v);
    }
    var inv := (m: Mapping) => forall p :: Placed(m, p) ==>
      placeOf(p).Some? && exists v :: v in Visits(config, "") && v.path == p;
    forall m: Mapping, v: Visited | inv(m) && v in Visits(config, "") ensures inv(visit(m, v).0) {
      forall p | Placed(visit(m, v).0, p) ensures placeOf(p).Some? && exists w :: w in Visits(config, "") && w.path == p {
        MapperStepPlaces(m, cmds, v.path, placeOf(v.path), p);
      }
    }
    assert inv(Mapping(map[], map[])) by {
      forall p ensures !Placed(Mapping(map[], map[]), p) {
      }
    }
    AcceptPreserves(config, "", Mapping(map[], map[]), visit, inv);
  }
}
