/** `gPerformAction` (src/config.cpp): after the nodes of a candidate configuration have been
    put in dependency order, every node's update constraints are checked, and then every node
    whose schema names an action endpoint is announced to that endpoint with an "add" POST. When
    a POST gets no response, the adds already delivered are undone with "remove" POSTs, most
    recent first.

    The dependency resolution, the schema lookup, the constraint checker and the HTTP client
    are parameters (`Env`). A POST is abstracted to its server, endpoint path, operation and
    the node it is about. */
module Actions {
  import opened Wrappers

  datatype Op = Add | Remove

  /** One POST sent to an action server. */
  datatype Post = Post(server: string, path: string, op: Op, target: string)

  /** The schema attributes of a node that `gPerformAction` reads: `update-constraints`,
      `action-on-update-path` and `action-server-address`, each a list of values. */
  datatype Schema = Schema(constraints: seq<string>, action: seq<string>, server: seq<string>)

  /** What the surroundings answer: the schema node of an xpath (`getSchemaByXPath`, null as
      `None`), whether the xpath selects a node of the candidate tree (`XPath::select`), the
      verdict of `ConstraintChecker::validate` on that node and a constraint, and whether a
      POST got a response. */
  datatype Env = Env(schemaOf: string -> Option<Schema>, selectable: string -> bool,
                     valid: (string, string) -> bool, delivered: Post -> bool)

  /** `Done(b)`: `gPerformAction` returned `b`. `Fault`: undefined behaviour or an exception
      that leaves the function. */
  datatype Outcome = Done(ok: bool) | Fault

  /** An outcome together with every POST sent, in order. */
  datatype Run = Run(outcome: Outcome, posts: seq<Post>)

  // ---------------------------------------------------------------------------------------
  // Constraint stage
  // ---------------------------------------------------------------------------------------

  /** A node passes when it has no schema, or when every update constraint of its schema is
      either skipped (the node cannot be selected) or validated. */
  predicate NodeHolds(x: string, env: Env)
  {
    match env.schemaOf(x)
    case None => true
    case Some(s) =>
      forall j :: 0 <= j < |s.constraints| ==> !env.selectable(x) || env.valid(x, s.constraints[j])
  }

  predicate ConstraintsHold(ordered: seq<string>, env: Env)
  {
    forall i :: 0 <= i < |ordered| ==> NodeHolds(ordered[i], env)
  }

  /** The inner constraint loop for one node. */
  method CheckNode(x: string, env: Env) returns (ok: bool)
    ensures ok <==> NodeHolds(x, env)
  {
    var schema := env.schemaOf(x);
    if schema.None? {
      return true;
    }
    var cs := schema.value.constraints;
    var j := 0;
    while j < |cs|
      invariant 0 <= j <= |cs|
      invariant forall j' :: 0 <= j' < j ==> !env.selectable(x) || env.valid(x, cs[j'])
    {
      if env.selectable(x) && !env.valid(x, cs[j]) {
        return false;
      }
      j := j + 1;
    }
    ok := true;
  }

  /** The constraint loop: false at the first constraint that fails to validate. */
  method CheckConstraints(ordered: seq<string>, env: Env) returns (ok: bool)
    ensures ok <==> ConstraintsHold(ordered, env)
  {
    var i := 0;
    while i < |ordered|
      invariant 0 <= i <= |ordered|
      invariant forall i' :: 0 <= i' < i ==> NodeHolds(ordered[i'], env)
    {
      var holds := CheckNode(ordered[i], env);
      if !holds {
        return false;
      }
      i := i + 1;
    }
    ok := true;
  }

  // ---------------------------------------------------------------------------------------
  // Post stage
  // ---------------------------------------------------------------------------------------

  /** The nodes the POSTs are about. */
  function Targets(ps: seq<Post>): (r: seq<string>)
    ensures |r| == |ps|
  {
    if ps == [] then [] else [ps[0].target] + Targets(ps[1..])
  }

  lemma {:induction false} TargetsAppend(ps: seq<Post>, p: Post)
    ensures Targets(ps + [p]) == Targets(ps) + [p.target]
    decreases |ps|
  {
    if ps != [] {
      assert (ps + [p])[1..] == ps[1..] + [p];
      TargetsAppend(ps[1..], p);
    }
  }

  /** The rollback loop of the corrected design: the delivered adds are popped off the stack
      and each is re-sent as a "remove" to the server and path of the node whose POST failed. */
  function Rollback(pushed: seq<Post>, server: string, path: string): seq<Post>
  {
    if pushed == [] then []
    else [Post(server, path, Remove, pushed[|pushed| - 1].target)] + Rollback(pushed[..|pushed| - 1], server, path)
  }

  /** One remove per delivered add, most recent add first. */
  lemma {:induction false} RollbackReverses(pushed: seq<Post>, server: string, path: string)
    ensures |Rollback(pushed, server, path)| == |pushed|
    ensures forall k :: 0 <= k < |pushed| ==>
      Rollback(pushed, server, path)[k] == Post(server, path, Remove, pushed[|pushed| - 1 - k].target)
  {
    if pushed != [] {
      var n := |pushed| - 1;
      var init := pushed[..n];
      var rb, rest := Rollback(pushed, server, path), Rollback(init, server, path);
      assert rb == [Post(server, path, Remove, pushed[n].target)] + rest;
      RollbackReverses(init, server, path);
      forall k | 0 < k < |pushed|
        ensures rb[k] == Post(server, path, Remove, pushed[n - k].target)
      {
        assert rb[k] == rest[k - 1];
        assert init[n - 1 - (k - 1)] == pushed[n - k];
      }
    }
  }

  /** The post loop, corrected: `pushed` holds the adds delivered so far. A node without a
      schema is dereferenced anyway (a fault); a node without an action path or a server
      address is skipped; a POST without a response ends the run with the rollback. */
  function Posting(xs: seq<string>, pushed: seq<Post>, env: Env): Run
    decreases |xs|
  {
    if xs == [] then Run(Done(true), [])
    else
      match env.schemaOf(xs[0])
      case None => Run(Fault, [])
      case Some(s) =>
        if s.action == [] || s.server == [] then Posting(xs[1..], pushed, env)
        else
          var p := Post(s.server[0], s.action[0], Add, xs[0]);
          if !env.delivered(p) then Run(Done(false), [p] + Rollback(pushed, s.server[0], s.action[0]))
          else
            var r := Posting(xs[1..], pushed + [p], env);
            Run(r.outcome, [p] + r.posts)
  }

  /** The post loop as written: the first pass of the rollback loop indexes the popped JSON
      object with `[0]`, which throws a `type_error` that the surrounding handler (it only
      catches `bad_any_cast`) lets escape. So no remove is ever sent: with adds to undo the
      run faults, and with none it returns false. */
  function PostingAsWritten(xs: seq<string>, pushed: seq<Post>, env: Env): Run
    decreases |xs|
  {
    if xs == [] then Run(Done(true), [])
    else
      match env.schemaOf(xs[0])
      case None => Run(Fault, [])
      case Some(s) =>
        if s.action == [] || s.server == [] then PostingAsWritten(xs[1..], pushed, env)
        else
          var p := Post(s.server[0], s.action[0], Add, xs[0]);
          if !env.delivered(p) then Run(if pushed == [] then Done(false) else Fault, [p])
          else
            var r := PostingAsWritten(xs[1..], pushed + [p], env);
            Run(r.outcome, [p] + r.posts)
  }

  /** `gPerformAction` on the resolved order, corrected. */
  function Perform(ordered: seq<string>, env: Env): Run
  {
    if !ConstraintsHold(ordered, env) then Run(Done(false), []) else Posting(ordered, [], env)
  }

  /** `gPerformAction` on the resolved order, as written. */
  function PerformAsWritten(ordered: seq<string>, env: Env): Run
  {
    if !ConstraintsHold(ordered, env) then Run(Done(false), []) else PostingAsWritten(ordered, [], env)
  }

  // ---------------------------------------------------------------------------------------
  // What the remote servers hold
  // ---------------------------------------------------------------------------------------

  /** The nodes the action servers hold, most recent last: a delivered add appends its node,
      a delivered remove of the most recent node takes it back, and anything else changes
      nothing. */
  function Apply(held: seq<string>, posts: seq<Post>, env: Env): seq<string>
    decreases |posts|
  {
    if posts == [] then held else Apply(Receive(held, posts[0], env), posts[1..], env)
  }

  /** What one POST does to the nodes the servers hold. */
  function Receive(held: seq<string>, q: Post, env: Env): seq<string>
  {
    if !env.delivered(q) then held
    else if q.op == Add then held + [q.target]
    else if held != [] && held[|held| - 1] == q.target then held[..|held| - 1]
    else held
  }

  /** Every remove among `posts` gets through. */
  predicate RemovesDelivered(posts: seq<Post>, env: Env)
  {
    forall k :: 0 <= k < |posts| && posts[k].op == Remove ==> env.delivered(posts[k])
  }

  /** The adds `gPerformAction` sends when every POST succeeds: one per node that has an
      action path and a server address, in the resolved order. */
  function EndpointAdds(xs: seq<string>, env: Env): seq<Post>
    decreases |xs|
  {
    if xs == [] then []
    else
      var here := match env.schemaOf(xs[0])
        case Some(s) => if s.action == [] || s.server == [] then [] else [Post(s.server[0], s.action[0], Add, xs[0])]
        case None => [];
      here + EndpointAdds(xs[1..], env)
  }

  /** Delivered rollback removes leave the servers holding nothing of what was pushed. */
  lemma {:induction false} RollbackUndoes(pushed: seq<Post>, server: string, path: string, env: Env)
    requires RemovesDelivered(Rollback(pushed, server, path), env)
    ensures Apply(Targets(pushed), Rollback(pushed, server, path), env) == []
  {
    if pushed != [] {
      var n := |pushed| - 1;
      var rb := Rollback(pushed, server, path);
      var rest := Rollback(pushed[..n], server, path);
      assert rb[0].op == Remove;
      assert rb[1..] == rest;
      forall k | 0 <= k < |rest| && rest[k].op == Remove ensures env.delivered(rest[k]) {
        assert rest[k] == rb[k + 1];
      }
      assert pushed == pushed[..n] + [pushed[n]];
      TargetsAppend(pushed[..n], pushed[n]);
      RollbackUndoes(pushed[..n], server, path, env);
    }
  }

  /** A run of the corrected post loop that ends in false, with every remove getting
      through, leaves the servers as they were before the first add: whatever it added has
      been taken back. */
  lemma {:induction false} PostingUndoes(xs: seq<string>, pushed: seq<Post>, env: Env)
    requires Posting(xs, pushed, env).outcome == Done(false)
    requires RemovesDelivered(Posting(xs, pushed, env).posts, env)
    ensures Apply(Targets(pushed), Posting(xs, pushed, env).posts, env) == []
    decreases |xs|
  {
    var s := env.schemaOf(xs[0]).value;
    var r := Posting(xs, pushed, env);
    if s.action == [] || s.server == [] {
      PostingUndoes(xs[1..], pushed, env);
    } else {
      var p := Post(s.server[0], s.action[0], Add, xs[0]);
      if !env.delivered(p) {
        var rb := Rollback(pushed, s.server[0], s.action[0]);
        assert r.posts[1..] == rb;
        forall k | 0 <= k < |rb| && rb[k].op == Remove ensures env.delivered(rb[k]) {
          assert rb[k] == r.posts[k + 1];
        }
        RollbackUndoes(pushed, s.server[0], s.action[0], env);
      } else {
        var r' := Posting(xs[1..], pushed + [p], env);
        assert r.posts[1..] == r'.posts;
        forall k | 0 <= k < |r'.posts| && r'.posts[k].op == Remove ensures env.delivered(r'.posts[k]) {
          assert r'.posts[k] == r.posts[k + 1];
        }
        TargetsAppend(pushed, p);
        PostingUndoes(xs[1..], pushed + [p], env);
      }
    }
  }

  /** A successful post loop sent exactly the endpoint adds, each of them delivered, and
      every node in the order had a schema. */
  lemma {:induction false} PostingSucceeds(xs: seq<string>, pushed: seq<Post>, env: Env)
    requires Posting(xs, pushed, env).outcome == Done(true)
    ensures Posting(xs, pushed, env).posts == EndpointAdds(xs, env)
    ensures forall k :: 0 <= k < |xs| ==> env.schemaOf(xs[k]).Some?
    ensures forall k :: 0 <= k < |EndpointAdds(xs, env)| ==> env.delivered(EndpointAdds(xs, env)[k])
    decreases |xs|
  {
    if xs != [] {
      PostingSucceeds(xs[1..], if env.schemaOf(xs[0]).value.action == [] || env.schemaOf(xs[0]).value.server == [] then pushed
        else pushed + [Post(env.schemaOf(xs[0]).value.server[0], env.schemaOf(xs[0]).value.action[0], Add, xs[0])], env);
      forall k | 0 < k < |xs| ensures env.schemaOf(xs[k]).Some? {
        assert xs[k] == xs[1..][k - 1];
      }
    }
  }

  /** Delivered adds append their nodes to what the servers hold. */
  lemma {:induction false} ApplyAdds(held: seq<string>, adds: seq<Post>, env: Env)
    requires forall k :: 0 <= k < |adds| ==> adds[k].op == Add && env.delivered(adds[k])
    ensures Apply(held, adds, env) == held + Targets(adds)
  {
    AddsAllDelivered(adds, env);
    ApplyDeliveredAdds(held, adds, env);
  }

  /** Every POST of `adds` is an add that gets through. */
  predicate DeliveredAdds(adds: seq<Post>, env: Env)
    decreases |adds|
  {
    adds == [] || (adds[0].op == Add && env.delivered(adds[0]) && DeliveredAdds(adds[1..], env))
  }

  lemma {:induction false} AddsAllDelivered(adds: seq<Post>, env: Env)
    requires forall k :: 0 <= k < |adds| ==> adds[k].op == Add && env.delivered(adds[k])
    ensures DeliveredAdds(adds, env)
    decreases |adds|
  {
    if adds != [] {
      var rest := adds[1..];
      forall k | 0 <= k < |rest| ensures rest[k].op == Add && env.delivered(rest[k]) {
        assert rest[k] == adds[k + 1];
      }
      AddsAllDelivered(rest, env);
    }
  }

  lemma {:induction false} ApplyDeliveredAdds(held: seq<string>, adds: seq<Post>, env: Env)
    requires DeliveredAdds(adds, env)
    ensures Apply(held, adds, env) == held + Targets(adds)
    decreases |adds|
  {
    if adds != [] {
      var q, rest := adds[0], adds[1..];
      var held' := held + [q.target];
      assert Receive(held, q, env) == held';
      ApplyDeliveredAdds(held', rest, env);
      assert held' + Targets(rest) == held + Targets(adds);
    }
  }

  lemma {:induction false} EndpointAddsAreAdds(xs: seq<string>, env: Env)
    ensures forall k :: 0 <= k < |EndpointAdds(xs, env)| ==> EndpointAdds(xs, env)[k].op == Add
    decreases |xs|
  {
    if xs != [] {
      EndpointAddsAreAdds(xs[1..], env);
    }
  }

  /** `gPerformAction`, corrected: a failed constraint sends nothing; success means every
      node with an endpoint was added, in order, and the servers hold exactly those nodes;
      false after the constraint stage means the servers were left holding nothing, when the
      removes got through. */
  lemma PerformSpec(ordered: seq<string>, env: Env)
    ensures !ConstraintsHold(ordered, env) ==> Perform(ordered, env) == Run(Done(false), [])
    ensures Perform(ordered, env).outcome == Done(true) ==>
      Perform(ordered, env).posts == EndpointAdds(ordered, env)
      && Apply([], Perform(ordered, env).posts, env) == Targets(EndpointAdds(ordered, env))
    ensures (ConstraintsHold(ordered, env) && Perform(ordered, env).outcome == Done(false)
             && RemovesDelivered(Perform(ordered, env).posts, env)) ==>
      Apply([], Perform(ordered, env).posts, env) == []
  {
    if ConstraintsHold(ordered, env) {
      var r := Posting(ordered, [], env);
      assert Targets([]) == [];
      if r.outcome == Done(true) {
        PostingSucceeds(ordered, [], env);
        EndpointAddsAreAdds(ordered, env);
        ApplyAdds([], r.posts, env);
      } else if r.outcome == Done(false) && RemovesDelivered(r.posts, env) {
        PostingUndoes(ordered, [], env);
      }
    }
  }

  /** The two versions differ only after a failed POST with delivered adds to undo: a
      successful run is the same in both, and the as-written run returns false only when the
      failed POST was the first one sent, which is also what the corrected run does. */
  lemma {:induction false} PostingAgrees(xs: seq<string>, pushed: seq<Post>, env: Env)
    ensures Posting(xs, pushed, env).outcome == Done(true) ==> PostingAsWritten(xs, pushed, env) == Posting(xs, pushed, env)
    ensures PostingAsWritten(xs, pushed, env).outcome == Done(false) ==>
      pushed == [] && PostingAsWritten(xs, pushed, env) == Posting(xs, pushed, env)
    decreases |xs|
  {
    if xs != [] && env.schemaOf(xs[0]).Some? {
      var s := env.schemaOf(xs[0]).value;
      if s.action == [] || s.server == [] {
        PostingAgrees(xs[1..], pushed, env);
      } else {
        var p := Post(s.server[0], s.action[0], Add, xs[0]);
        if env.delivered(p) {
          PostingAgrees(xs[1..], pushed + [p], env);
        }
      }
    }
  }

  /** Two nodes with the same endpoint; only the second one's add gets no response. As
      written, the run faults and the first node stays on the server; corrected, it returns
      false and the first node is removed again. */
  lemma RollbackCounterexample()
    ensures var env := Env(x => Some(Schema([], ["/p"], ["s"])), x => true, (x, c) => true,
                           (q: Post) => q.target == "/a" || q.op == Remove);
      var add := Post("s", "/p", Add, "/a");
      PerformAsWritten(["/a", "/b"], env) == Run(Fault, [add, Post("s", "/p", Add, "/b")])
      && Apply([], PerformAsWritten(["/a", "/b"], env).posts, env) == ["/a"]
      && Perform(["/a", "/b"], env) == Run(Done(false), [add, Post("s", "/p", Add, "/b"), Post("s", "/p", Remove, "/a")])
      && Apply([], Perform(["/a", "/b"], env).posts, env) == []
  {
    var env := Env(x => Some(Schema([], ["/p"], ["s"])), x => true, (x, c) => true,
                   (q: Post) => q.target == "/a" || q.op == Remove);
    var a, b := Post("s", "/p", Add, "/a"), Post("s", "/p", Add, "/b");
    var xs := ["/a", "/b"];
    assert ConstraintsHold(xs, env);
    assert xs[1..] == ["/b"] && xs[1..][1..] == [];
    assert Rollback([a], "s", "/p") == [Post("s", "/p", Remove, "/a")];
    assert PostingAsWritten(["/b"], [a], env) == Run(Fault, [b]);
    assert Posting(["/b"], [a], env) == Run(Done(false), [b, Post("s", "/p", Remove, "/a")]);
  }

  // ---------------------------------------------------------------------------------------
  // The imperative loops
  // ---------------------------------------------------------------------------------------

  /** The corrected rollback loop: pops the stack of delivered adds and sends a remove for
      each. */
  method RollbackPosts(pushed: seq<Post>, server: string, path: string) returns (sent: seq<Post>)
    ensures sent == Rollback(pushed, server, path)
  {
    var stack := pushed;
    sent := [];
    while stack != []
      invariant |stack| <= |pushed| && stack == pushed[..|stack|]
      invariant sent + Rollback(stack, server, path) == Rollback(pushed, server, path)
      decreases |stack|
    {
      var action := stack[|stack| - 1];
      stack := stack[..|stack| - 1];
      sent := sent + [Post(server, path, Remove, action.target)];
    }
  }

  /** The post loop, corrected. */
  method PostAll(ordered: seq<string>, env: Env) returns (outcome: Outcome, posts: seq<Post>)
    ensures Run(outcome, posts) == Posting(ordered, [], env)
  {
    var pushed: seq<Post> := [];
    var i := 0;
    while i < |ordered|
      invariant 0 <= i <= |ordered|
      invariant var r := Posting(ordered[i..], pushed, env); Posting(ordered, [], env) == Run(r.outcome, pushed + r.posts)
    {
      var x := ordered[i];
      assert ordered[i..][0] == x && ordered[i..][1..] == ordered[i + 1..];
      var schema := env.schemaOf(x);
      if schema.None? {
        return Fault, pushed;
      }
      var s := schema.value;
      if s.action != [] && s.server != [] {
        var p := Post(s.server[0], s.action[0], Add, x);
        if !env.delivered(p) {
          var removes := RollbackPosts(pushed, s.server[0], s.action[0]);
          return Done(false), pushed + [p] + removes;
        }
        assert pushed + [p] + Posting(ordered[i + 1..], pushed + [p], env).posts
          == pushed + ([p] + Posting(ordered[i + 1..], pushed + [p], env).posts);
        pushed := pushed + [p];
      }
      i := i + 1;
    }
    assert ordered[i..] == [];
    outcome, posts := Done(true), pushed;
  }

  /** `gPerformAction`, corrected, on the order the dependency resolver produced (the
      resolver always succeeds). */
  method PerformAction(ordered: seq<string>, env: Env) returns (outcome: Outcome, posts: seq<Post>)
    ensures Run(outcome, posts) == Perform(ordered, env)
  {
    var ok := CheckConstraints(ordered, env);
    if !ok {
      return Done(false), [];
    }
    outcome, posts := PostAll(ordered, env);
  }
}
