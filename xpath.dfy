/** The XPath helpers of src/xpath.cpp: `strtok` tokenising (`parse`, `parse2`, `parse3`,
    `parse4`), `mergeTokens`, `to_string2`, `get_root`, `select`, `select2`, `count_members`,
    `evaluate_xpath_key` and `evaluate_xpath2`. Downward lookups run over a `Tree` snapshot;
    upward walks follow `parent` links on the heap along a ghost ancestor list. A C++ exception
    or undefined behaviour (`at(0)` on "", `front()`/`pop()` on an empty queue, a null
    dereference) is the result `None`. */
module XPath {
  import opened Wrappers
  import opened Strings
  import opened Trees
  import opened Nodes

  const Separator: char := '/'
  const KeySubscript: string := "[@key]"

  // ---------------------------------------------------------------------------------------
  // Tokenising: strtok(xpath, "/")
  // ---------------------------------------------------------------------------------------

  /** A token `strtok` can return: non-empty and free of the separator. */
  predicate IsToken(t: string)
  {
    t != "" && Separator !in t
  }

  predicate AllTokens(ts: seq<string>)
  {
    forall i :: 0 <= i < |ts| ==> IsToken(ts[i])
  }

  /** The non-empty pieces, in order. */
  function NonEmpty(ps: seq<string>): (r: seq<string>)
    ensures forall i :: 0 <= i < |r| ==> r[i] != "" && r[i] in ps
  {
    if ps == [] then [] else (if ps[0] == "" then [] else [ps[0]]) + NonEmpty(ps[1..])
  }

  lemma {:induction false} NonEmptyAppend(a: seq<string>, b: seq<string>)
    ensures NonEmpty(a + b) == NonEmpty(a) + NonEmpty(b)
  {
    if a == [] {
      assert a + b == b;
    } else {
      assert (a + b)[1..] == a[1..] + b;
      NonEmptyAppend(a[1..], b);
    }
  }

  /** The tokens `strtok` yields for "/": the maximal runs of non-separator characters. */
  function Tokens(s: string): (r: seq<string>)
    ensures AllTokens(r)
  {
    SplitOnPiecesFree(s, Separator);
    NonEmpty(SplitOn(s, Separator))
  }

  /** A pending run followed by a separator becomes one token (if non-empty). */
  lemma TokensAfterSeparator(run: string, rest: string)
    requires Separator !in run
    ensures Tokens(run + [Separator] + rest) == (if run == "" then [] else [run]) + Tokens(rest)
  {
    SplitOnPrefix(run, Separator, rest);
    NonEmptyAppend([run], SplitOn(rest, Separator));
    assert [run][1..] == [];
  }

  lemma TokensOfRun(run: string)
    requires Separator !in run
    ensures Tokens(run) == if run == "" then [] else [run]
  {
    SplitOnSingle(run, Separator);
    assert [run][1..] == [];
    assert NonEmpty([run]) == (if run == "" then [] else [run]) + NonEmpty([run][1..]);
  }

  /** A separator and a token appended at the end add that token at the end. */
  lemma TokensAppend(s: string, t: string)
    requires IsToken(t)
    ensures Tokens(s + [Separator] + t) == Tokens(s) + [t]
  {
    SplitOnSuffix(s, Separator, t);
    NonEmptyAppend(SplitOn(s, Separator), [t]);
  }

  /** The concatenated tokens are the input with its separators dropped: tokenising loses
      nothing else and keeps the order. */
  lemma {:induction false} TokensKeepOrder(s: string)
    ensures Concat(Tokens(s)) == Without(s, Separator)
  {
    ConcatSplit(s);
    ConcatNonEmpty(SplitOn(s, Separator));
  }

  function Concat(ps: seq<string>): string
  {
    if ps == [] then "" else ps[0] + Concat(ps[1..])
  }

  lemma {:induction false} ConcatSplit(s: string)
    ensures Concat(SplitOn(s, Separator)) == Without(s, Separator)
  {
    if s != [] {
      ConcatSplit(s[1..]);
      var rest := SplitOn(s[1..], Separator);
      if s[0] != Separator {
        var ps := SplitOn(s, Separator);
        assert ps[1..] == rest[1..];
        assert Concat(rest) == rest[0] + Concat(rest[1..]);
      }
    }
  }

  lemma {:induction false} ConcatNonEmpty(ps: seq<string>)
    ensures Concat(NonEmpty(ps)) == Concat(ps)
  {
    if ps != [] {
      ConcatNonEmpty(ps[1..]);
      if ps[0] != "" {
        assert NonEmpty(ps) == [ps[0]] + NonEmpty(ps[1..]);
        assert NonEmpty(ps)[1..] == NonEmpty(ps[1..]);
      } else {
        assert NonEmpty(ps) == NonEmpty(ps[1..]);
        assert Concat(ps) == "" + Concat(ps[1..]) == Concat(ps[1..]);
      }
    }
  }

  /** One character of the scan: a separator ends the pending run, anything else extends
      it. */
  lemma ParseStep(xpath: string, i: nat, run: string)
    requires i < |xpath| && Separator !in run
    ensures xpath[i] == Separator ==>
      Tokens(run + xpath[i..]) == (if run == "" then [] else [run]) + Tokens("" + xpath[i + 1..])
    ensures xpath[i] != Separator ==> Tokens(run + xpath[i..]) == Tokens((run + [xpath[i]]) + xpath[i + 1..])
  {
    if xpath[i] == Separator {
      assert run + xpath[i..] == run + [Separator] + xpath[i + 1..];
      TokensAfterSeparator(run, xpath[i + 1..]);
      assert "" + xpath[i + 1..] == xpath[i + 1..];
    } else {
      assert run + xpath[i..] == (run + [xpath[i]]) + xpath[i + 1..];
    }
  }

  /** `parse` (and the identical `parse2`, `parse3`, `parse4`): the strtok loop, as a scan
      that collects each run of non-separator characters when it ends. */
  method Parse(xpath: string) returns (items: seq<string>)
    ensures items == Tokens(xpath)
  {
    items := [];
    var run := "";
    var i := 0;
    assert run + xpath[i..] == xpath;
    while i < |xpath|
      invariant 0 <= i <= |xpath|
      invariant Separator !in run
      invariant Tokens(xpath) == items + Tokens(run + xpath[i..])
    {
      ParseStep(xpath, i, run);
      if xpath[i] == Separator {
        if run != "" {
          items := items + [run];
        }
        run := "";
      } else {
        run := run + [xpath[i]];
      }
      i := i + 1;
    }
    assert run + xpath[i..] == run;
    TokensOfRun(run);
    if run != "" {
      items := items + [run];
    }
  }

  // ---------------------------------------------------------------------------------------
  // mergeTokens
  // ---------------------------------------------------------------------------------------

  /** What `mergeTokens` builds: "/" then each token, with a "/" before it unless the text so
      far already ends in "/". */
  function Merged(ts: seq<string>): (r: string)
    ensures |r| > 0 && r[0] == Separator
  {
    if ts == [] then [Separator]
    else
      var x := Merged(ts[..|ts| - 1]);
      (if x[|x| - 1] != Separator then x + [Separator] else x) + ts[|ts| - 1]
  }

  method MergeTokens(ts: seq<string>) returns (xpath: string)
    ensures xpath == Merged(ts)
  {
    xpath := [Separator];
    var i := 0;
    while i < |ts|
      invariant 0 <= i <= |ts|
      invariant xpath == Merged(ts[..i])
    {
      assert ts[..i + 1][..i] == ts[..i];
      if xpath[|xpath| - 1] != Separator {
        xpath := xpath + [Separator];
      }
      xpath := xpath + ts[i];
      i := i + 1;
    }
    assert ts[..i] == ts;
  }

  /** The tokens joined by single separators. */
  function Join(ts: seq<string>): string
  {
    if ts == [] then "" else if |ts| == 1 then ts[0] else Join(ts[..|ts| - 1]) + [Separator] + ts[|ts| - 1]
  }

  /** On well-formed tokens `mergeTokens` is "/" followed by the tokens joined with "/". */
  lemma {:induction false} MergedIsJoin(ts: seq<string>)
    requires AllTokens(ts)
    ensures Merged(ts) == [Separator] + Join(ts)
  {
    if ts != [] {
      var init := ts[..|ts| - 1];
      assert AllTokens(init) by {
        forall i | 0 <= i < |init| ensures IsToken(init[i]) { assert init[i] == ts[i]; }
      }
      MergedIsJoin(init);
      if init != [] {
        var t := init[|init| - 1];
        assert IsToken(t);
        assert Join(init)[|Join(init)| - 1] == t[|t| - 1] by { JoinEnds(init); }
      }
    }
  }

  lemma {:induction false} JoinEnds(ts: seq<string>)
    requires AllTokens(ts) && ts != []
    ensures |Join(ts)| >= |ts[|ts| - 1]| > 0
    ensures Join(ts)[|Join(ts)| - 1] == ts[|ts| - 1][|ts[|ts| - 1]| - 1]
  {
    assert IsToken(ts[|ts| - 1]);
  }

  /** Tokenising "/" + the join gives the tokens back. */
  lemma {:induction false} TokensOfJoin(ts: seq<string>)
    requires AllTokens(ts)
    ensures Tokens([Separator] + Join(ts)) == ts
  {
    if ts == [] {
      TokensAfterSeparator("", "");
      TokensOfRun("");
      assert [Separator] + Join(ts) == "" + [Separator] + "";
    } else {
      var init := ts[..|ts| - 1];
      var t := ts[|ts| - 1];
      assert IsToken(t);
      assert AllTokens(init) by {
        forall i | 0 <= i < |init| ensures IsToken(init[i]) { assert init[i] == ts[i]; }
      }
      if init == [] {
        TokensAppend("", t);
        TokensOfRun("");
        assert [Separator] + Join(ts) == "" + [Separator] + t;
      } else {
        TokensOfJoin(init);
        TokensAppend([Separator] + Join(init), t);
        assert [Separator] + Join(ts) == ([Separator] + Join(init)) + [Separator] + t;
      }
      assert init + [t] == ts;
    }
  }

  /** Round trip: parsing what `mergeTokens` built returns the tokens. */
  lemma MergeRoundTrip(ts: seq<string>)
    requires AllTokens(ts)
    ensures Tokens(Merged(ts)) == ts
  {
    MergedIsJoin(ts);
    TokensOfJoin(ts);
  }

  /** Merging what was parsed gives the canonical form; merging and parsing again changes
      nothing further. */
  lemma MergeCanonical(s: string)
    ensures Merged(Tokens(s)) == [Separator] + Join(Tokens(s))
    ensures Merged(Tokens(Merged(Tokens(s)))) == Merged(Tokens(s))
  {
    MergedIsJoin(Tokens(s));
    MergeRoundTrip(Tokens(s));
  }

  // ---------------------------------------------------------------------------------------
  // Upward walks: to_string2, get_root
  // ---------------------------------------------------------------------------------------

  /** `chain` lists `n` and its ancestors, up to the node without a parent. */
  ghost predicate IsAncestry(n: Node?, chain: seq<Node>)
    reads chain
  {
    (n == null <==> chain == [])
    && (n != null ==> chain[0] == n)
    && (forall i :: 0 <= i < |chain| - 1 ==> chain[i].parent == chain[i + 1])
    && (forall i :: 0 <= i < |chain| ==> (chain[i].parent == null <==> i == |chain| - 1))
  }

  /** The names along an ancestor list, from the node up. */
  function UpNames(chain: seq<Node>): (r: seq<string>)
    ensures |r| == |chain| && forall i :: 0 <= i < |chain| ==> r[i] == chain[i].name
  {
    seq(|chain|, i requires 0 <= i < |chain| => chain[i].name)
  }

  /** The path `to_string2` prints for a node whose names, from the node up, are `up`: the
      parent's path followed by the node's own segment. */
  function PathOf(up: seq<string>): string
  {
    if up == [] then "" else PathOf(up[1..]) + PathSegment(up[0])
  }

  /** `to_string2`: pushes the names up to the root, then pops them root first. */
  method ToString2(node: Node?, ghost chain: seq<Node>) returns (path: string)
    requires IsAncestry(node, chain)
    ensures path == PathOf(UpNames(chain))
  {
    var stack: seq<string> := [];
    var processing := node;
    ghost var i := 0;
    while processing != null
      invariant 0 <= i <= |chain|
      invariant stack == UpNames(chain[..i])
      invariant processing == if i < |chain| then chain[i] else null
      decreases |chain| - i
    {
      stack := stack + [processing.name];
      processing := processing.parent;
      i := i + 1;
      assert chain[..i] == chain[..i - 1] + [chain[i - 1]];
    }
    assert chain[..i] == chain;
    path := "";
    var j := |stack|;
    while j > 0
      invariant 0 <= j <= |stack|
      invariant path == PathOf(stack[j..])
    {
      var top := stack[j - 1];
      if top != "/" {
        if top == [] || top[0] != '[' {
          path := path + [Separator];
        }
        path := path + top;
      }
      assert stack[j - 1..][1..] == stack[j..];
      j := j - 1;
    }
  }

  /** A root named "/" contributes nothing to the path; alone it prints as "". */
  lemma {:induction false} SlashRootSilent(up: seq<string>)
    ensures PathOf(up + ["/"]) == PathOf(up)
  {
    if up != [] {
      assert (up + ["/"])[1..] == up[1..] + ["/"];
      SlashRootSilent(up[1..]);
    } else {
      assert PathOf(["/"]) == PathOf([]) + PathSegment("/");
    }
  }

  function Reverse(s: seq<string>): (r: seq<string>)
    ensures |r| == |s|
  {
    if s == [] then [] else Reverse(s[1..]) + [s[0]]
  }

  /** Names `to_string2` prints as "/" + name: tokens that do not start with "[". */
  predicate PlainNames(up: seq<string>)
  {
    AllTokens(up) && forall i :: 0 <= i < |up| ==> up[i][0] != '['
  }

  /** Plain names print as "/" followed by the names, root first, joined with "/". */
  lemma {:induction false} PathOfPlainNames(up: seq<string>)
    requires up != [] && PlainNames(up)
    ensures PathOf(up) == [Separator] + Join(Reverse(up))
  {
    var a := up[0];
    var rest := up[1..];
    assert IsToken(a) && a[0] != '[';
    assert PathSegment(a) == [Separator] + a;
    if rest == [] {
      assert Reverse(up) == [a];
      assert PathOf(up) == "" + ([Separator] + a);
    } else {
      assert PlainNames(rest) by {
        forall i | 0 <= i < |rest| ensures IsToken(rest[i]) && rest[i][0] != '[' {
          assert rest[i] == up[i + 1];
        }
      }
      PathOfPlainNames(rest);
      JoinSnoc(Reverse(rest), a);
      assert PathOf(up) == ([Separator] + Join(Reverse(rest))) + ([Separator] + a);
    }
  }

  /** Joining one more token appends a separator and the token. */
  lemma JoinSnoc(ts: seq<string>, a: string)
    requires ts != []
    ensures Join(ts + [a]) == Join(ts) + [Separator] + a
  {
    var ta := ts + [a];
    assert ta[..|ta| - 1] == ts && ta[|ta| - 1] == a;
  }

  /** So the path of plain names parses back into the names, root first. */
  lemma PathOfPlainNamesParses(up: seq<string>)
    requires up != [] && PlainNames(up)
    ensures Tokens(PathOf(up)) == Reverse(up)
  {
    PathOfPlainNames(up);
    AllTokensReverse(up);
    TokensOfJoin(Reverse(up));
  }

  lemma {:induction false} AllTokensReverse(s: seq<string>)
    requires AllTokens(s)
    ensures AllTokens(Reverse(s))
  {
    if s != [] {
      assert AllTokens(s[1..]) by {
        forall i | 0 <= i < |s| - 1 ensures IsToken(s[1..][i]) { assert s[1..][i] == s[i + 1]; }
      }
      AllTokensReverse(s[1..]);
      assert IsToken(s[0]);
    }
  }

  /** `get_root`: follows parents from the start node until there is none. */
  method GetRoot(start: Node?, ghost chain: seq<Node>) returns (root: Node?)
    requires IsAncestry(start, chain)
    ensures start == null ==> root == null
    ensures start != null ==> root == chain[|chain| - 1] && IsAncestry(root, [root])
  {
    if start == null {
      return null;
    }
    root := start;
    ghost var i := 0;
    while root.parent != null
      invariant 0 <= i < |chain| && root == chain[i]
      decreases |chain| - i
    {
      root := root.parent;
      i := i + 1;
    }
  }

  /** The ancestor list of a node is determined by the node, so `get_root` is a function of
      its argument; with `GetRoot`'s own contract this makes it idempotent. */
  lemma {:induction false} AncestryUnique(n: Node?, a: seq<Node>, b: seq<Node>)
    requires IsAncestry(n, a) && IsAncestry(n, b)
    ensures a == b
    decreases |a|
  {
    if n != null {
      if |a| > 1 && |b| > 1 {
        assert a[0].parent == a[1] && b[0].parent == b[1];
        AncestryTail(n, a);
        AncestryTail(n, b);
        AncestryUnique(n.parent, a[1..], b[1..]);
        assert a == [a[0]] + a[1..] && b == [b[0]] + b[1..];
      }
    }
  }

  lemma AncestryTail(n: Node, a: seq<Node>)
    requires IsAncestry(n, a) && |a| > 1
    ensures IsAncestry(n.parent, a[1..])
  {
    assert a[0].parent == a[1];
    forall i | 0 <= i < |a| - 1
      ensures a[1..][i].parent == null <==> i == |a| - 2
    {
      assert a[1..][i] == a[i + 1];
    }
  }

  // ---------------------------------------------------------------------------------------
  // Downward lookups: select, select2, count_members
  // ---------------------------------------------------------------------------------------

  /** The names one item is looked up by: an item holding both "[" and "]" is the name before
      the "[" and then the text after it, up to the "]" when that comes later, else to the end
      (the length `right - left - 1` wraps around as an unsigned number). */
  function ItemNames(item: string): (r: seq<string>)
    ensures 1 <= |r| <= 2
    ensures |r| == 2 <==> Contains(item, "[") && Contains(item, "]")
    ensures |r| == 1 ==> r[0] == item
  {
    var left := Strings.Find(item, "[");
    var right := Strings.Find(item, "]");
    if left != -1 && right != -1 then
      [item[..left], if right > left then item[left + 1..right] else item[left + 1..]]
    else [item]
  }

  /** Successive NodeFinder lookups, each in the subtree found by the previous one. */
  function FindSteps(t: Tree, names: seq<string>): Option<Tree>
    decreases |names|
  {
    if names == [] then Some(t)
    else
      match Trees.Find(t, names[0])
      case None => None
      case Some(d) => FindSteps(d, names[1..])
  }

  /** The loop of `select` over the items; with `valueStops` (`select2`), a last item "value"
      returns the node reached so far. */
  function WalkItems(t: Tree, items: seq<string>, valueStops: bool): Option<Tree>
    decreases |items|
  {
    if items == [] then Some(t)
    else if valueStops && items[0] == "value" && |items| == 1 then Some(t)
    else
      match FindSteps(t, ItemNames(items[0]))
      case None => None
      case Some(d) => WalkItems(d, items[1..], valueStops)
  }

  function SelectSpec(root: Option<Tree>, xpath: string, valueStops: bool): Option<Tree>
  {
    if root.None? || xpath == "" then None else WalkItems(root.value, Tokens(xpath), valueStops)
  }

  /** `select`: null for a missing root or an empty path, else the lookups of every item. */
  method Select(root: Option<Tree>, xpath: string) returns (r: Option<Tree>)
    ensures r == SelectSpec(root, xpath, false)
  {
    r := SelectItems(root, xpath, false);
  }

  /** `select2`: `select`, except that a final item "value" names the node reached. */
  method Select2(root: Option<Tree>, xpath: string) returns (r: Option<Tree>)
    ensures r == SelectSpec(root, xpath, true)
  {
    r := SelectItems(root, xpath, true);
  }

  method SelectItems(root: Option<Tree>, xpath: string, valueStops: bool) returns (r: Option<Tree>)
    ensures r == SelectSpec(root, xpath, valueStops)
  {
    if root.None? || xpath == "" {
      return None;
    }
    var items := Parse(xpath);
    var visiting := root.value;
    var i := 0;
    while i < |items|
      invariant 0 <= i <= |items|
      invariant SelectSpec(root, xpath, valueStops) == WalkItems(visiting, items[i..], valueStops)
    {
      var item := items[i];
      if valueStops && item == "value" && |items| - i == 1 {
        return Some(visiting);
      }
      var found := FindEach(visiting, ItemNames(item));
      if found.None? {
        return None;
      }
      visiting := found.value;
      assert items[i..][1..] == items[i + 1..];
      i := i + 1;
    }
    r := Some(visiting);
  }

  /** The inner loop of `select`: one NodeFinder walk per name of the item. */
  method FindEach(t: Tree, names: seq<string>) returns (r: Option<Tree>)
    ensures r == FindSteps(t, names)
  {
    var visiting := t;
    var j := 0;
    while j < |names|
      invariant 0 <= j <= |names|
      invariant FindSteps(t, names) == FindSteps(visiting, names[j..])
    {
      var found := AcceptLoop(visiting, "", None, FinderVisit(names[j]));
      if found.None? {
        return None;
      }
      visiting := found.value;
      j := j + 1;
    }
    r := Some(visiting);
  }

  lemma {:induction false} WithinTransitive(a: Tree, b: Tree, c: Tree)
    requires Within(a, b) && Within(b, c)
    ensures Within(a, c)
    decreases c
  {
    var i :| 0 <= i < |c.kids| && (b == c.kids[i] || Within(b, c.kids[i]));
    if b != c.kids[i] {
      WithinTransitive(a, b, c.kids[i]);
    }
  }

  /** A successful chain of lookups ends at a descendant carrying the last name. */
  lemma {:induction false} FindStepsSpec(t: Tree, names: seq<string>)
    requires names != [] && FindSteps(t, names).Some?
    ensures FindSteps(t, names).value.name == names[|names| - 1]
    ensures Within(FindSteps(t, names).value, t)
    decreases |names|
  {
    FindSpec(t, names[0]);
    var d := Trees.Find(t, names[0]).value;
    if |names| > 1 {
      FindStepsSpec(d, names[1..]);
      WithinTransitive(FindSteps(t, names).value, d, t);
    }
  }

  /** A lookup chain fails exactly when some lookup finds no descendant of that name. */
  lemma {:induction false} FindStepsFails(t: Tree, names: seq<string>)
    requires names != []
    ensures FindSteps(t, names).None? <==>
      (!exists d: Tree :: d.name == names[0] && Within(d, t))
      || (Trees.Find(t, names[0]).Some? && FindSteps(Trees.Find(t, names[0]).value, names[1..]).None?)
  {
    FindSpec(t, names[0]);
  }

  /** `select` yields a descendant of the root (or the root itself for a path without items)
      whose name is the last name looked up. */
  lemma {:induction false} SelectFindsLastName(t: Tree, items: seq<string>, valueStops: bool)
    requires WalkItems(t, items, valueStops).Some?
    ensures var d := WalkItems(t, items, valueStops).value; d == t || Within(d, t)
    ensures !valueStops && items != [] ==>
      var names := ItemNames(items[|items| - 1]);
      WalkItems(t, items, valueStops).value.name == names[|names| - 1]
    decreases |items|
  {
    if items != [] && !(valueStops && items[0] == "value" && |items| == 1) {
      var names := ItemNames(items[0]);
      FindStepsSpec(t, names);
      var d := FindSteps(t, names).value;
      assert WalkItems(t, items, valueStops) == WalkItems(d, items[1..], valueStops);
      SelectFindsLastName(d, items[1..], valueStops);
      var e := WalkItems(d, items[1..], valueStops).value;
      if e != d {
        WithinTransitive(e, d, t);
      }
      if |items| > 1 {
        assert items[1..][|items| - 2] == items[|items| - 1];
      }
    }
  }

  /** `select2` on items ending in "value" is `select` on the items before it. */
  lemma {:induction false} Select2DropsValue(t: Tree, items: seq<string>)
    ensures WalkItems(t, items + ["value"], true) == WalkItems(t, items, false)
    decreases |items|
  {
    if items != [] {
      assert (items + ["value"])[1..] == items[1..] + ["value"];
      assert (items + ["value"])[0] == items[0];
      var step := FindSteps(t, ItemNames(items[0]));
      if step.Some? {
        Select2DropsValue(step.value, items[1..]);
      }
    }
  }

  /** `count_members`: 0 when nothing is selected, else the number of nodes below it. */
  method CountMembers(root: Option<Tree>, xpath: string) returns (count: nat)
    ensures count == match SelectSpec(root, xpath, false) case None => 0 case Some(d) => Size(d) - 1
  {
    var wanted := Select(root, xpath);
    if wanted.None? {
      return 0;
    }
    count := AcceptLoop(wanted.value, "", 0, CounterVisit());
    CounterCountsDescendants(wanted.value, "");
  }

  // ---------------------------------------------------------------------------------------
  // [@key] resolution: evaluate_xpath_key, evaluate_xpath2
  // ---------------------------------------------------------------------------------------

  /** Both evaluators first make every "[@key]" a token of its own. */
  function Prepared(xpath: string): string
  {
    ReplaceAll(xpath, KeySubscript, [Separator] + KeySubscript)
  }

  /** The loop of `evaluate_xpath_key`: for each path token pop one node-path token, until the
      "[@key]" token, which answers the node-path token at its position. */
  function KeyToken(xs: seq<string>, ns: seq<string>): Option<string>
  {
    if xs == [] then Some("")
    else if xs[0] == KeySubscript then (if ns == [] then None else Some(ns[0]))
    else if ns == [] then None
    else KeyToken(xs[1..], ns[1..])
  }

  /** Position of the first `x` in `s`, or `|s|`. */
  function FirstIndex(s: seq<string>, x: string): (r: nat)
    ensures r <= |s| && (r < |s| ==> s[r] == x)
    ensures forall i :: 0 <= i < r ==> s[i] != x
  {
    if s == [] then 0 else if s[0] == x then 0 else 1 + FirstIndex(s[1..], x)
  }

  /** The answer is positional: the node-path token at the index of the first "[@key]"; ""
      when there is none; `None` when the node path runs out first. */
  lemma {:induction false} KeyTokenSpec(xs: seq<string>, ns: seq<string>)
    ensures var i := FirstIndex(xs, KeySubscript);
      KeyToken(xs, ns) ==
        if i < |xs| then (if i < |ns| then Some(ns[i]) else None)
        else if |xs| <= |ns| then Some("") else None
  {
    if xs != [] && xs[0] != KeySubscript && ns != [] {
      KeyTokenSpec(xs[1..], ns[1..]);
    }
  }

  function EvaluateKeySpec(chain: seq<Node>, xpath: string): Option<string>
  {
    if xpath == "" then None
    else if xpath[0] != Separator then Some("")
    else KeyToken(Tokens(Prepared(xpath)), Tokens(PathOf(UpNames(chain))))
  }

  /** `evaluate_xpath_key`: the token of the start node's path at the position of "[@key]". */
  method EvaluateXPathKey(start: Node?, ghost chain: seq<Node>, xpath: string) returns (r: Option<string>)
    requires IsAncestry(start, chain)
    ensures r == EvaluateKeySpec(chain, xpath)
  {
    if xpath == "" {
      return None;
    }
    if xpath[0] != Separator {
      return Some("");
    }
    var prepared := Prepared(xpath);
    var nodePath := ToString2(start, chain);
    var xs := Parse(prepared);
    var ns := Parse(nodePath);
    while xs != []
      invariant EvaluateKeySpec(chain, xpath) == KeyToken(xs, ns)
    {
      var token := xs[0];
      xs := xs[1..];
      if token == KeySubscript {
        if ns == [] {
          return None;
        }
        return Some(ns[0]);
      }
      if ns == [] {
        return None;
      }
      ns := ns[1..];
    }
    r := Some("");
  }

  /** Position of the last `x` in `s`, or `|s|`. */
  function LastIndex(s: seq<string>, x: string): (r: nat)
    ensures r <= |s| && (r < |s| ==> s[r] == x)
    ensures forall i :: r < i < |s| ==> s[i] != x
    ensures r == |s| ==> x !in s
  {
    if s == [] then 0
    else if s[|s| - 1] == x then |s| - 1
    else
      var k := LastIndex(s[..|s| - 1], x);
      assert x !in s[..|s| - 1] ==> x !in s by {
        assert s == s[..|s| - 1] + [s[|s| - 1]];
      }
      if k == |s| - 1 then |s| else k
  }

  /** Index of the first ancestor named `wanted`, or `|chain|`. */
  function FirstNamed(chain: seq<Node>, wanted: string): (r: nat)
    ensures r <= |chain| && (r < |chain| ==> chain[r].name == wanted)
    ensures forall i :: 0 <= i < r ==> chain[i].name != wanted
  {
    if chain == [] then 0 else if chain[0].name == wanted then 0 else 1 + FirstNamed(chain[1..], wanted)
  }

  /** Index of the first ancestor whose parent is a composite, or `|chain|`. */
  function FirstUnderComposite(chain: seq<Node>): (r: nat)
    ensures r <= |chain| && (r < |chain| ==> r + 1 < |chain| && chain[r + 1].IsComposite())
    ensures forall i :: 0 < i <= r && i < |chain| ==> !chain[i].IsComposite()
  {
    if |chain| < 2 then |chain|
    else if chain[1].IsComposite() then 0
    else
      var r := 1 + FirstUnderComposite(chain[1..]);
      assert forall i :: 1 < i <= r && i < |chain| ==> chain[i] == chain[1..][i - 1];
      r
  }

  /** The name `evaluate_xpath2` puts in place of "[@key]": the parent's name of the nearest
      ancestor named `wanted` (`None` when that is the root, whose parent is null); failing
      such an ancestor, the name of the nearest one that sits in a composite, or "". */
  function ResolvedKey(chain: seq<Node>, wanted: string): Option<string>
  {
    var i := FirstNamed(chain, wanted);
    if i < |chain| then (if i + 1 < |chain| then Some(chain[i + 1].name) else None)
    else
      var j := FirstUnderComposite(chain);
      if j < |chain| then Some(chain[j].name) else Some("")
  }

  /** Every "[@key]" item replaced by `key`, every other item kept in place. */
  function Substitute(items: seq<string>, key: string): (r: seq<string>)
    ensures |r| == |items|
  {
    seq(|items|, i requires 0 <= i < |items| => if items[i] == KeySubscript then key else items[i])
  }

  /** "/" before every item. */
  function Rooted(items: seq<string>): string
  {
    if items == [] then "" else Rooted(items[..|items| - 1]) + [Separator] + items[|items| - 1]
  }

  function Evaluate2Spec(chain: seq<Node>, xpath: string): Option<string>
  {
    if xpath == "" then None
    else if xpath[0] != Separator then Some("")
    else
      var items := Tokens(Prepared(xpath));
      if KeySubscript !in items then Some(Rooted(items))
      else if chain == [] then None
      else
        var idx := LastIndex(items, KeySubscript);
        var wanted := if |items| > idx + 1 then items[idx + 1] else items[idx];
        match ResolvedKey(chain, wanted)
        case None => None
        case Some(key) => Some(Rooted(Substitute(items, key)))
  }

  /** `evaluate_xpath2`: the path with every "[@key]" replaced by one resolved name. */
  method EvaluateXPath2(start: Node?, ghost chain: seq<Node>, xpath: string) returns (r: Option<string>)
    requires IsAncestry(start, chain)
    ensures r == Evaluate2Spec(chain, xpath)
  {
    if xpath == "" {
      return None;
    }
    if xpath[0] != Separator {
      return Some("");
    }
    var items := Parse(Prepared(xpath));
    var found, idx := FindLastKey(items);
    if found {
      if start == null {
        return None;
      }
      var wanted := if |items| > idx + 1 then items[idx + 1] else items[idx];
      var key := ResolveKey(start, chain, wanted);
      if key.None? {
        return None;
      }
      items := SubstituteKey(items, key.value);
    }
    var evaluated := JoinRooted(items);
    r := Some(evaluated);
  }

  /** The last loop of `evaluate_xpath2`'s key resolution: every "[@key]" item becomes `key`. */
  method SubstituteKey(items: seq<string>, key: string) returns (out: seq<string>)
    ensures out == Substitute(items, key)
  {
    out := items;
    var k := 0;
    while k < |out|
      invariant 0 <= k <= |out| == |items|
      invariant forall i :: 0 <= i < k ==> out[i] == Substitute(items, key)[i]
      invariant forall i :: k <= i < |out| ==> out[i] == items[i]
    {
      if out[k] == KeySubscript {
        out := out[k := key];
      }
      k := k + 1;
    }
  }

  /** The final loop of `evaluate_xpath2`: "/" before every item. */
  method JoinRooted(items: seq<string>) returns (evaluated: string)
    ensures evaluated == Rooted(items)
  {
    evaluated := "";
    var k := 0;
    while k < |items|
      invariant 0 <= k <= |items|
      invariant evaluated == Rooted(items[..k])
    {
      assert items[..k + 1][..k] == items[..k];
      evaluated := evaluated + [Separator] + items[k];
      k := k + 1;
    }
    assert items[..k] == items;
  }

  /** The multimap lookup of `evaluate_xpath2`: whether "[@key]" is an item, and the largest
      index holding it. */
  method FindLastKey(items: seq<string>) returns (found: bool, idx: nat)
    ensures found <==> KeySubscript in items
    ensures found ==> idx == LastIndex(items, KeySubscript)
  {
    found := false;
    idx := 0;
    var k := 0;
    while k < |items|
      invariant 0 <= k <= |items|
      invariant found <==> KeySubscript in items[..k]
      invariant found ==> idx < k && items[idx] == KeySubscript
      invariant forall i :: idx < i < k ==> items[i] != KeySubscript
    {
      if items[k] == KeySubscript {
        found := true;
        idx := k;
      }
      assert items[..k + 1] == items[..k] + [items[k]];
      k := k + 1;
    }
    assert items[..k] == items;
    if found {
      var last := LastIndex(items, KeySubscript);
      assert last < |items|;
    }
  }

  /** The two upward walks of `evaluate_xpath2` that pick the name for "[@key]". */
  method ResolveKey(start: Node, ghost chain: seq<Node>, wanted: string) returns (key: Option<string>)
    requires IsAncestry(start, chain)
    ensures key == ResolvedKey(chain, wanted)
  {
    var curr := start;
    ghost var i := 0;
    while curr.name != wanted && curr.parent != null
      invariant 0 <= i < |chain| && curr == chain[i]
      invariant forall m :: 0 <= m < i ==> chain[m].name != wanted
      decreases |chain| - i
    {
      curr := curr.parent;
      i := i + 1;
    }
    if curr.name == wanted {
      assert FirstNamed(chain, wanted) == i;
      if curr.parent == null {
        return None;
      }
      return Some(curr.parent.name);
    }
    assert FirstNamed(chain, wanted) == |chain|;
    var c: Node? := start;
    ghost var j := 0;
    var resolved := "";
    while c != null
      invariant 0 <= j <= |chain| && (c == if j < |chain| then chain[j] else null)
      invariant forall m :: 0 < m <= j && m < |chain| ==> !chain[m].IsComposite()
      decreases |chain| - j
    {
      if j < |chain| - 1 {
        assert c.parent == chain[j + 1];
      }
      if c.parent != null && c.parent.IsComposite() {
        assert chain[j + 1].IsComposite();
        assert FirstUnderComposite(chain) == j;
        return Some(c.name);
      }
      c := c.parent;
      j := j + 1;
    }
    assert FirstUnderComposite(chain) == |chain|;
    key := Some(resolved);
  }

  /** The result keeps every item but "[@key]" in its place, puts one and the same name in
      every "[@key]" place, and is the "/"-prefixed join of the items: as long as that name
      is a token, parsing the result gives those items back. */
  lemma {:induction false} SubstituteSpec(items: seq<string>, key: string)
    requires AllTokens(items) && IsToken(key)
    ensures forall i :: 0 <= i < |items| ==>
      Substitute(items, key)[i] == (if items[i] == KeySubscript then key else items[i])
    ensures Tokens(Rooted(Substitute(items, key))) == Substitute(items, key)
  {
    var s := Substitute(items, key);
    assert AllTokens(s) by {
      forall i | 0 <= i < |s| ensures IsToken(s[i]) { assert IsToken(items[i]); }
    }
    RootedRoundTrip(s);
  }

  /** Rooting well-formed items is merging them. */
  lemma {:induction false} RootedIsMerged(items: seq<string>)
    requires AllTokens(items)
    ensures items != [] ==> Rooted(items) == Merged(items)
  {
    if items != [] {
      var init := items[..|items| - 1];
      assert AllTokens(init) by {
        forall i | 0 <= i < |init| ensures IsToken(init[i]) { assert init[i] == items[i]; }
      }
      RootedIsMerged(init);
      if init != [] {
        var x := Merged(init);
        var last := init[|init| - 1];
        assert IsToken(last);
        MergedIsJoin(init);
        JoinEnds(init);
        assert x[|x| - 1] == last[|last| - 1];
      }
    }
  }

  /** Rooted well-formed items parse back. */
  lemma RootedRoundTrip(items: seq<string>)
    requires AllTokens(items)
    ensures items != [] ==> Rooted(items) == Merged(items)
    ensures Tokens(Rooted(items)) == items
  {
    if items == [] {
      TokensOfRun("");
    } else {
      RootedIsMerged(items);
      MergeRoundTrip(items);
    }
  }

  /** A path that does not start with "/" evaluates to "" in both evaluators; an empty one
      throws. */
  lemma RelativePathsEvaluateEmpty(chain: seq<Node>, xpath: string)
    requires xpath != "" && xpath[0] != Separator
    ensures EvaluateKeySpec(chain, xpath) == Some("") && Evaluate2Spec(chain, xpath) == Some("")
  {
  }
}
