/** `ConnectionManagement::Server` (src/connection_management.cpp): four handler registries,
    one per HTTP method, and the dispatch of a request to every handler of its method. A
    handler (`RequestCallback`) receives the path, the request body and the current return
    data, and answers whether it succeeded together with the return data it leaves behind. */
module Connection {
  import opened Strings

  /** `Method`; `Unsupported` stands for any value outside the four enumerators. */
  datatype HttpMethod = Get | Put | Post | Delete | Unsupported

  type Callback = (string, string, string) -> (bool, string)

  /** A registry (`Map<String, RequestCallback>`), keyed by handler id. */
  type Handlers = map<string, Callback>

  /** `addConnectionHandler`: sets or overwrites the handler under `id`; always succeeds. */
  method AddConnectionHandler(callbacks: Handlers, id: string, handler: Callback) returns (ok: bool, r: Handlers)
    ensures ok
    ensures r.Keys == callbacks.Keys + {id} && r[id] == handler
    ensures forall k :: k in callbacks && k != id ==> r[k] == callbacks[k]
  {
    r := callbacks[id := handler];
    ok := true;
  }

  /** `removeConnectionHandler`: drops `id` if present; always succeeds, even for an absent
      id. */
  method RemoveConnectionHandler(callbacks: Handlers, id: string) returns (ok: bool, r: Handlers)
    ensures ok
    ensures r.Keys == callbacks.Keys - {id}
    ensures forall k :: k in r ==> r[k] == callbacks[k]
  {
    r := callbacks - {id};
    ok := true;
  }

  /** What dispatching to a run of handlers produced: whether all succeeded, the return data
      left behind, and how many handlers were called. */
  datatype Outcome = Outcome(ok: bool, returnData: string, called: nat)

  /** Calls the handlers `ks` of `hs` in order, threading the return data, and stops at the
      first one that fails. */
  function RunFrom(hs: Handlers, ks: seq<string>, path: string, data: string, ret: string): (o: Outcome)
    requires forall k :: k in ks ==> k in hs
    ensures o.called <= |ks|
  {
    if ks == [] then Outcome(true, ret, 0)
    else
      var (b, ret') := hs[ks[0]](path, data, ret);
      if !b then Outcome(false, ret', 1)
      else
        var o := RunFrom(hs, ks[1..], path, data, ret');
        Outcome(o.ok, o.returnData, o.called + 1)
  }

  /** Success means every handler ran; failure means the handlers before the last one called
      all succeeded, and the last one called failed and left the final return data. */
  lemma {:induction false} RunFromStops(hs: Handlers, ks: seq<string>, path: string, data: string, ret: string)
    requires forall k :: k in ks ==> k in hs
    ensures var o := RunFrom(hs, ks, path, data, ret);
      (o.ok ==> o.called == |ks|)
      && (!o.ok ==>
            1 <= o.called
            && var p := RunFrom(hs, ks[..o.called - 1], path, data, ret);
            var last := hs[ks[o.called - 1]](path, data, p.returnData);
            p.ok && !last.0 && o.returnData == last.1)
  {
    if ks != [] {
      var (b, ret') := hs[ks[0]](path, data, ret);
      if b {
        RunFromStops(hs, ks[1..], path, data, ret');
        var o := RunFrom(hs, ks, path, data, ret);
        if !o.ok {
          var n := o.called - 1;
          assert ks[..n][1..] == ks[1..][..n - 1];
          assert ks[1..][n - 1] == ks[n];
        }
      } else {
        assert ks[..0] == [];
      }
    }
  }

  /** With no handlers registered, dispatch succeeds, calls nothing and leaves the return
      data alone. */
  lemma RunFromNone(hs: Handlers, path: string, data: string, ret: string)
    requires hs == map[]
    ensures SortedKeys(hs.Keys) == [] && RunFrom(hs, [], path, data, ret) == Outcome(true, ret, 0)
  {
    assert hs.Keys == {};
  }

  /** Running `ks` is running a prefix and then the rest from the prefix's return data. */
  lemma {:induction false} RunFromSplit(hs: Handlers, ks: seq<string>, i: nat, path: string, data: string, ret: string)
    requires forall k :: k in ks ==> k in hs
    requires i <= |ks|
    requires var p := RunFrom(hs, ks[..i], path, data, ret); p.ok
    ensures var p := RunFrom(hs, ks[..i], path, data, ret);
      var o := RunFrom(hs, ks[i..], path, data, p.returnData);
      RunFrom(hs, ks, path, data, ret) == Outcome(o.ok, o.returnData, o.called + i)
  {
    if i > 0 {
      var (b, ret') := hs[ks[0]](path, data, ret);
      assert ks[..i][0] == ks[0];
      assert ks[..i][1..] == ks[1..][..i - 1];
      assert ks[i..] == ks[1..][i - 1..];
      RunFromSplit(hs, ks[1..], i - 1, path, data, ret');
    } else {
      assert ks[..0] == [] && ks[0..] == ks;
    }
  }

  /** One more handler after a successful prefix: either the prefix grows by one, or the
      whole run ends with this handler's failure. */
  lemma RunFromStep(hs: Handlers, ks: seq<string>, i: nat, path: string, data: string, ret: string, cur: string)
    requires forall k :: k in ks ==> k in hs
    requires i < |ks|
    requires RunFrom(hs, ks[..i], path, data, ret) == Outcome(true, cur, i)
    ensures var (b, ret') := hs[ks[i]](path, data, cur);
      (b ==> RunFrom(hs, ks[..i + 1], path, data, ret) == Outcome(true, ret', i + 1))
      && (!b ==> RunFrom(hs, ks, path, data, ret) == Outcome(false, ret', i + 1))
  {
    RunFromSplit(hs, ks, i, path, data, ret);
    assert ks[i..][1..] == ks[i + 1..];
    assert ks[..i + 1][..i] == ks[..i];
    assert ks[..i + 1][i..] == [ks[i]];
    RunFromSplit(hs, ks[..i + 1], i, path, data, ret);
  }

  /** The result of dispatching to a whole registry: its handlers in ascending id order. */
  ghost function Dispatch(hs: Handlers, path: string, data: string, ret: string): Outcome
  {
    SortedKeysMembers(hs.Keys);
    RunFrom(hs, SortedKeys(hs.Keys), path, data, ret)
  }

  /** The dispatch loop of `processRequest` over the ids `ks`, stopping at the first
      failure. */
  method RunHandlers(hs: Handlers, ks: seq<string>, path: string, data: string, ret: string)
    returns (ok: bool, returnData: string, ghost called: nat)
    requires forall k :: k in ks ==> k in hs
    ensures Outcome(ok, returnData, called) == RunFrom(hs, ks, path, data, ret)
  {
    returnData := ret;
    var i := 0;
    while i < |ks|
      invariant 0 <= i <= |ks|
      invariant RunFrom(hs, ks[..i], path, data, ret) == Outcome(true, returnData, i)
    {
      RunFromStep(hs, ks, i, path, data, ret, returnData);
      var (b, ret') := hs[ks[i]](path, data, returnData);
      if !b {
        return false, ret', i + 1;
      }
      returnData := ret';
      i := i + 1;
    }
    assert ks[..i] == ks;
    ok, called := true, i;
  }

  /** Dispatch to a whole registry. */
  method DispatchAll(hs: Handlers, path: string, data: string, ret: string)
    returns (ok: bool, returnData: string, ghost called: nat)
    ensures Outcome(ok, returnData, called) == Dispatch(hs, path, data, ret)
  {
    var ks := OrderedKeys(hs.Keys);
    SortedKeysMembers(hs.Keys);
    ok, returnData, called := RunHandlers(hs, ks, path, data, ret);
  }

  class Server {
    var onDelete: Handlers
    var onGet: Handlers
    var onPost: Handlers
    var onPut: Handlers

    constructor ()
      ensures onDelete == map[] && onGet == map[] && onPost == map[] && onPut == map[]
    {
      onDelete, onGet, onPost, onPut := map[], map[], map[], map[];
    }

    /** The registry a method dispatches to; an unsupported method has none. */
    function HandlersFor(m: HttpMethod): Handlers
      reads this
    {
      match m
      case Get => onGet
      case Put => onPut
      case Post => onPost
      case Delete => onDelete
      case Unsupported => map[]
    }

    method AddOnDeleteConnectionHandler(id: string, handler: Callback) returns (ok: bool)
      modifies this`onDelete
      ensures ok && onDelete == old(onDelete)[id := handler]
    {
      ok, onDelete := AddConnectionHandler(onDelete, id, handler);
    }

    method RemoveOnDeleteConnectionHandler(id: string) returns (ok: bool)
      modifies this`onDelete
      ensures ok && onDelete == old(onDelete) - {id}
    {
      ok, onDelete := RemoveConnectionHandler(onDelete, id);
    }

    method AddOnGetConnectionHandler(id: string, handler: Callback) returns (ok: bool)
      modifies this`onGet
      ensures ok && onGet == old(onGet)[id := handler]
    {
      ok, onGet := AddConnectionHandler(onGet, id, handler);
    }

    method RemoveOnGetConnectionHandler(id: string) returns (ok: bool)
      modifies this`onGet
      ensures ok && onGet == old(onGet) - {id}
    {
      ok, onGet := RemoveConnectionHandler(onGet, id);
    }

    method AddOnPostConnectionHandler(id: string, handler: Callback) returns (ok: bool)
      modifies this`onPost
      ensures ok && onPost == old(onPost)[id := handler]
    {
      ok, onPost := AddConnectionHandler(onPost, id, handler);
    }

    method RemoveOnPostConnectionHandler(id: string) returns (ok: bool)
      modifies this`onPost
      ensures ok && onPost == old(onPost) - {id}
    {
      ok, onPost := RemoveConnectionHandler(onPost, id);
    }

    method AddOnPutConnectionHandler(id: string, handler: Callback) returns (ok: bool)
      modifies this`onPut
      ensures ok && onPut == old(onPut)[id := handler]
    {
      ok, onPut := AddConnectionHandler(onPut, id, handler);
    }

    method RemoveOnPutConnectionHandler(id: string) returns (ok: bool)
      modifies this`onPut
      ensures ok && onPut == old(onPut) - {id}
    {
      ok, onPut := RemoveConnectionHandler(onPut, id);
    }

    /** `processRequest`: an unsupported method fails without calling anything; otherwise
        the method's handlers run in ascending id order until the first failure. */
    method ProcessRequest(m: HttpMethod, path: string, data: string, ret: string)
      returns (ok: bool, returnData: string, ghost called: nat)
      ensures m == Unsupported ==> !ok && returnData == ret && called == 0
      ensures m != Unsupported ==>
        Outcome(ok, returnData, called) == Dispatch(HandlersFor(m), path, data, ret)
    {
      match m
      case Get => ok, returnData, called := DispatchAll(onGet, path, data, ret);
      case Put => ok, returnData, called := DispatchAll(onPut, path, data, ret);
      case Post => ok, returnData, called := DispatchAll(onPost, path, data, ret);
      case Delete => ok, returnData, called := DispatchAll(onDelete, path, data, ret);
      case Unsupported => ok, returnData, called := false, ret, 0;
    }
  }
}
