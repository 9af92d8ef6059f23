/** `ISubject` (src/node/observer.cpp): two registries of observing nodes keyed by the
    observer's path, one notified on updates and one on deletes. A registry entry is a
    `WeakPtr`; whether it has expired is the `live` set handed to the notifying method, and what
    an observer's `onUpdate`/`onDelete` answers is the oracle `accepts`. */
module Observer {
  import opened Strings
  import opened Nodes
  import opened XPath

  /** A registry (`std::map<String, WeakPtr<Node>>`). */
  type Registry = map<string, Node>

  /** `attach`: registers `node` under its path unless the path is empty, the node is not an
      observer, or the path is already taken; an existing entry is never overwritten. */
  method Attach(node: Node, ghost chain: seq<Node>, m: Registry) returns (ok: bool, r: Registry)
    requires IsAncestry(node, chain)
    ensures var path := PathOf(UpNames(chain));
      (ok <==> path != "" && node.observer && path !in m)
      && (ok ==> r == m[path := node] && r.Keys == m.Keys + {path})
      && (!ok ==> r == m)
  {
    var xpath := ToString2(node, chain);
    if xpath == "" {
      return false, m;
    }
    if !node.observer {
      return false, m;
    }
    if xpath in m {
      return false, m;
    }
    r := m[xpath := node];
    ok := true;
  }

  /** `detach`: an absent path is refused; otherwise exactly that entry goes. */
  method Detach(xpath: string, m: Registry) returns (ok: bool, r: Registry)
    ensures ok <==> xpath in m
    ensures ok ==> r.Keys == m.Keys - {xpath} && forall k :: k in r ==> r[k] == m[k]
    ensures !ok ==> r == m
  {
    if xpath !in m {
      return false, m;
    }
    r := m - {xpath};
    ok := true;
  }

  /** Every live observer in `m` accepts the notification. */
  ghost predicate AllAccept(m: Registry, live: set<Node>, accepts: Node -> bool)
  {
    forall k :: k in m && m[k] in live ==> accepts(m[k])
  }

  /** The registry with its expired entries dropped. */
  function LiveOnly(m: Registry, live: set<Node>): (r: Registry)
    ensures forall k :: k in r <==> k in m && m[k] in live
  {
    map k | k in m && m[k] in live :: m[k]
  }

  /** The keys whose observers are called when the keys `ks` of `m` are visited in order:
      every live one up to and including the first that refuses. */
  function Called(m: Registry, ks: seq<string>, live: set<Node>, accepts: Node -> bool): seq<string>
  {
    if ks == [] then []
    else if ks[0] !in m || m[ks[0]] !in live then Called(m, ks[1..], live, accepts)
    else if !accepts(m[ks[0]]) then [ks[0]]
    else [ks[0]] + Called(m, ks[1..], live, accepts)
  }

  /** Strictly ascending in `std::string` order. */
  ghost predicate Ascending(s: seq<string>)
  {
    forall i, j :: 0 <= i < j < |s| ==> Below(s[i], s[j])
  }

  /** Only live observers of `ks` are called. */
  lemma {:induction false} CalledLive(m: Registry, ks: seq<string>, live: set<Node>, accepts: Node -> bool)
    ensures forall k :: k in Called(m, ks, live, accepts) ==> k in ks && k in m && m[k] in live
  {
    if ks != [] {
      CalledLive(m, ks[1..], live, accepts);
    }
  }

  /** Every observer called before the last one accepted; the last one refused exactly when
      some live observer of `ks` refuses. */
  lemma {:induction false} CalledStops(m: Registry, ks: seq<string>, live: set<Node>, accepts: Node -> bool)
    ensures var c := Called(m, ks, live, accepts);
      (forall k :: k in c ==> k in m)
      && (forall i :: 0 <= i < |c| - 1 ==> accepts(m[c[i]]))
      && ((c != [] && !accepts(m[c[|c| - 1]])) <==> Refuses(m, ks, live, accepts))
  {
    CalledLive(m, ks, live, accepts);
    if ks != [] {
      CalledStops(m, ks[1..], live, accepts);
      CalledLive(m, ks[1..], live, accepts);
      var c := Called(m, ks, live, accepts);
      var c' := Called(m, ks[1..], live, accepts);
      if ks[0] in m && m[ks[0]] in live && accepts(m[ks[0]]) {
        assert c == [ks[0]] + c';
        assert Refuses(m, ks, live, accepts) == Refuses(m, ks[1..], live, accepts);
      }
    }
  }

  /** Some live observer among `ks` refuses. */
  predicate Refuses(m: Registry, ks: seq<string>, live: set<Node>, accepts: Node -> bool)
  {
    ks != [] && ((ks[0] in m && m[ks[0]] in live && !accepts(m[ks[0]])) || Refuses(m, ks[1..], live, accepts))
  }

  /** `Refuses` over all of a registry's keys is the failure of `AllAccept`. */
  lemma {:induction false} RefusesSpec(m: Registry, ks: seq<string>, live: set<Node>, accepts: Node -> bool)
    ensures Refuses(m, ks, live, accepts) <==> exists i :: 0 <= i < |ks| && ks[i] in m && m[ks[i]] in live && !accepts(m[ks[i]])
  {
    if ks != [] {
      RefusesSpec(m, ks[1..], live, accepts);
      if exists i :: 0 <= i < |ks| && ks[i] in m && m[ks[i]] in live && !accepts(m[ks[i]]) {
        var i :| 0 <= i < |ks| && ks[i] in m && m[ks[i]] in live && !accepts(m[ks[i]]);
        if i > 0 { assert ks[1..][i - 1] == ks[i]; }
      }
      if Refuses(m, ks[1..], live, accepts) {
        var i :| 0 <= i < |ks[1..]| && ks[1..][i] in m && m[ks[1..][i]] in live && !accepts(m[ks[1..][i]]);
        assert ks[i + 1] == ks[1..][i];
      }
    }
  }

  /** The calls keep the order of `ks`. */
  lemma {:induction false} CalledAscending(m: Registry, ks: seq<string>, live: set<Node>, accepts: Node -> bool)
    requires Ascending(ks)
    ensures Ascending(Called(m, ks, live, accepts))
  {
    if ks != [] {
      assert Ascending(ks[1..]);
      CalledAscending(m, ks[1..], live, accepts);
      CalledLive(m, ks[1..], live, accepts);
      var c := Called(m, ks, live, accepts);
      var c' := Called(m, ks[1..], live, accepts);
      if ks[0] in m && m[ks[0]] in live && accepts(m[ks[0]]) {
        assert c == [ks[0]] + c';
        forall i, j | 0 <= i < j < |c| ensures Below(c[i], c[j]) {
          if i == 0 {
            assert c[j] == c'[j - 1] && c[j] in ks[1..];
            var l :| 0 <= l < |ks[1..]| && ks[1..][l] == c[j];
            assert Below(ks[0], ks[l + 1]);
          } else {
            assert c[i] == c'[i - 1] && c[j] == c'[j - 1];
          }
        }
      }
    }
  }

  /** Erases every listed key; the list's order does not matter. */
  method EraseAll(m: Registry, xs: seq<string>) returns (r: Registry)
    ensures r.Keys == m.Keys - set x | x in xs
    ensures forall k :: k in r ==> r[k] == m[k]
  {
    r := m;
    var i := 0;
    while i < |xs|
      invariant 0 <= i <= |xs|
      invariant r.Keys == m.Keys - set x | x in xs[..i]
      invariant forall k :: k in r ==> r[k] == m[k]
    {
      r := r - {xs[i]};
      i := i + 1;
      assert xs[..i] == xs[..i - 1] + [xs[i - 1]];
    }
    assert xs[..i] == xs;
  }

  /** The loop of `notifyOnUpdate`/`notifyOnDelete`: visits the keys `ks` in order, calls
      each live observer and stops at the first refusal; expired keys are collected at the
      front of a list. */
  method Visit(m: Registry, ks: seq<string>, live: set<Node>, accepts: Node -> bool)
    returns (refused: bool, expired: seq<string>, ghost calls: seq<string>)
    requires forall k :: k in ks ==> k in m
    ensures refused <==> Refuses(m, ks, live, accepts)
    ensures !refused ==> forall x :: x in expired <==> x in ks && m[x] !in live
    ensures calls == Called(m, ks, live, accepts)
  {
    expired := [];
    calls := [];
    var i := 0;
    while i < |ks|
      invariant 0 <= i <= |ks|
      invariant Refuses(m, ks, live, accepts) == Refuses(m, ks[i..], live, accepts)
      invariant forall x :: x in expired <==> x in ks[..i] && m[x] !in live
      invariant calls + Called(m, ks[i..], live, accepts) == Called(m, ks, live, accepts)
    {
      var k := ks[i];
      var observer := m[k];
      assert ks[i..][1..] == ks[i + 1..];
      if observer !in live {
        expired := [k] + expired;
      } else {
        calls := calls + [k];
        if !accepts(observer) {
          return true, expired, calls;
        }
      }
      i := i + 1;
      assert ks[..i] == ks[..i - 1] + [k];
    }
    assert ks[..i] == ks;
    refused := false;
  }

  /** `notifyOnUpdate`/`notifyOnDelete` over one registry: calls the live observers in
      ascending path order and stops at the first refusal, leaving the registry as it was;
      when all accept, the expired entries are erased. `calls` records whose observer ran. */
  method Notify(m: Registry, live: set<Node>, accepts: Node -> bool)
    returns (ok: bool, r: Registry, ghost calls: seq<string>)
    ensures ok <==> AllAccept(m, live, accepts)
    ensures ok ==> r == LiveOnly(m, live)
    ensures !ok ==> r == m
    ensures calls == Called(m, SortedKeys(m.Keys), live, accepts)
  {
    var ks := OrderedKeys(m.Keys);
    SortedKeysMembers(m.Keys);
    var refused, expired;
    refused, expired, calls := Visit(m, ks, live, accepts);
    RefusesSpec(m, ks, live, accepts);
    if refused {
      return false, m, calls;
    }
    r := EraseAll(m, expired);
    ok := true;
  }

  /** The observer side of `ISubject`: the on-update and on-delete registries. */
  class Subject {
    var onUpdate: Registry
    var onDelete: Registry

    constructor ()
      ensures onUpdate == map[] && onDelete == map[]
    {
      onUpdate := map[];
      onDelete := map[];
    }

    /** `attachOnUpdate`: `attach` on the on-update registry only. */
    method AttachOnUpdate(node: Node, ghost chain: seq<Node>) returns (ok: bool)
      requires IsAncestry(node, chain)
      modifies this`onUpdate
      ensures var path := PathOf(UpNames(chain));
        (ok <==> path != "" && node.observer && path !in old(onUpdate))
        && onUpdate == (if ok then old(onUpdate)[path := node] else old(onUpdate))
      ensures onDelete == old(onDelete)
    {
      ok, onUpdate := Attach(node, chain, onUpdate);
    }

    /** `detachOnUpdate`: `detach` on the on-update registry only. */
    method DetachOnUpdate(xpath: string) returns (ok: bool)
      modifies this`onUpdate
      ensures (ok <==> xpath in old(onUpdate))
      ensures onUpdate == if ok then old(onUpdate) - {xpath} else old(onUpdate)
      ensures onDelete == old(onDelete)
    {
      ok, onUpdate := Detach(xpath, onUpdate);
    }

    /** `attachOnDelete`: `attach` on the on-delete registry only. */
    method AttachOnDelete(node: Node, ghost chain: seq<Node>) returns (ok: bool)
      requires IsAncestry(node, chain)
      modifies this`onDelete
      ensures var path := PathOf(UpNames(chain));
        (ok <==> path != "" && node.observer && path !in old(onDelete))
        && onDelete == (if ok then old(onDelete)[path := node] else old(onDelete))
      ensures onUpdate == old(onUpdate)
    {
      ok, onDelete := Attach(node, chain, onDelete);
    }

    /** `detachOnDelete`: `detach` on the on-delete registry only. */
    method DetachOnDelete(xpath: string) returns (ok: bool)
      modifies this`onDelete
      ensures (ok <==> xpath in old(onDelete))
      ensures onDelete == if ok then old(onDelete) - {xpath} else old(onDelete)
      ensures onUpdate == old(onUpdate)
    {
      ok, onDelete := Detach(xpath, onDelete);
    }

    /** `notifyOnUpdate(node)`: `accepts` is what each observer's `onUpdate(node)` answers. */
    method NotifyOnUpdate(live: set<Node>, accepts: Node -> bool) returns (ok: bool, ghost calls: seq<string>)
      modifies this`onUpdate
      ensures ok <==> AllAccept(old(onUpdate), live, accepts)
      ensures onUpdate == if ok then LiveOnly(old(onUpdate), live) else old(onUpdate)
      ensures calls == Called(old(onUpdate), SortedKeys(old(onUpdate).Keys), live, accepts)
      ensures onDelete == old(onDelete)
    {
      ok, onUpdate, calls := Notify(onUpdate, live, accepts);
    }

    /** `notifyOnDelete(node)`: `accepts` is what each observer's `onDelete(node)` answers. */
    method NotifyOnDelete(live: set<Node>, accepts: Node -> bool) returns (ok: bool, ghost calls: seq<string>)
      modifies this`onDelete
      ensures ok <==> AllAccept(old(onDelete), live, accepts)
      ensures onDelete == if ok then LiveOnly(old(onDelete), live) else old(onDelete)
      ensures calls == Called(old(onDelete), SortedKeys(old(onDelete).Keys), live, accepts)
      ensures onUpdate == old(onUpdate)
    {
      ok, onDelete, calls := Notify(onDelete, live, accepts);
    }
  }

  /** The observers run in strictly ascending path order, only live ones, and all but the
      last accepted; the last one refused exactly when notification fails. */
  lemma NotifyCallOrder(m: Registry, live: set<Node>, accepts: Node -> bool)
    ensures var c := Called(m, SortedKeys(m.Keys), live, accepts);
      Ascending(c)
      && (forall k :: k in c ==> k in m && m[k] in live)
      && (forall i :: 0 <= i < |c| - 1 ==> accepts(m[c[i]]))
      && (!AllAccept(m, live, accepts) <==> c != [] && !accepts(m[c[|c| - 1]]))
  {
    var ks := SortedKeys(m.Keys);
    SortedKeysSpec(m.Keys);
    CalledAscending(m, ks, live, accepts);
    CalledLive(m, ks, live, accepts);
    CalledStops(m, ks, live, accepts);
    RefusesSpec(m, ks, live, accepts);
  }
}
