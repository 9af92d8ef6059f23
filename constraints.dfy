/** `ConstraintChecker::validate` (src/constraint_checking.cpp): a constraint is parsed by a
    PEG grammar whose semantic actions work on the stacks of one `PEGArgument`. The parser
    and the order in which it fires the actions are the grammar library's; here the fired
    actions are the input, and each action is modelled as the change it makes to the
    stacks and the two flags. */
module Constraints {
  import opened Wrappers
  import opened Trees
  import Strings
  import Utils

  /** One fired semantic action with the token text it sees. `Condition` carries the number of
      semantic values of its rule. */
  datatype Action =
    | Reference
    | NumberToken(n: int)
    | StringToken(text: string)
    | ConditionOperator(op: string)
    | Keyword(word: string)
    | Condition(values: nat)
    | MustFunc
    | CountFunc
    | ExistsFunc
    | IfStatement

  /** What the `@` case of `exists` looks at: the node being validated, the `reference`
      attributes of its schema node (`None` when it has no schema node), and whether an xpath
      selects a node of the configuration (`XPath::select2`). */
  datatype Env = Env(current: Tree, refs: Option<seq<string>>, selects: string -> bool)

  /** The fields of `PEGArgument` that the actions change; the top of a stack is its last
      element, and a null node is `None`. */
  datatype PegState = PegState(
    strings: seq<string>, numbers: seq<int>, bools: seq<bool>, operators: seq<string>,
    nodes: seq<Option<Tree>>, continueProcessing: bool, expressionResult: bool)

  /** A fresh `PEGArgument`: empty stacks, processing on, result false. */
  const Initial := PegState([], [], [], [], [], true, false)

  /** What a comparison pushes: equality for "=", inequality for "~", nothing for "&" or
      "|". */
  function Compared<T(==)>(op: string, a1: T, a2: T): (r: seq<bool>)
    ensures |r| <= 1
  {
    if op == "=" then [a1 == a2] else if op == "~" then [a1 != a2] else []
  }

  function KeywordStep(s: PegState, word: string): Option<PegState>
  {
    if !s.continueProcessing then Some(s)
    else if word == "true" then Some(s.(bools := s.bools + [true]))
    else if word == "false" then Some(s.(bools := s.bools + [false]))
    else if Utils.Trim(word) == "then" then
      if s.bools == [] then None
      else
        var top := s.bools[|s.bools| - 1];
        Some(s.(expressionResult := if !top then true else s.expressionResult, continueProcessing := top,
                bools := [], nodes := [], numbers := [], strings := []))
    else Some(s)
  }

  function ConditionStep(s: PegState, values: nat): PegState
  {
    if values != 3 || !s.continueProcessing then s
    else if |s.bools| > 1 && s.operators != [] then
      var n, o := |s.bools|, |s.operators|;
      s.(bools := s.bools[..n - 2] + Compared(s.operators[o - 1], s.bools[n - 2], s.bools[n - 1]),
         operators := s.operators[..o - 1])
    else if |s.numbers| > 1 && s.operators != [] then
      var n, o := |s.numbers|, |s.operators|;
      s.(bools := s.bools + Compared(s.operators[o - 1], s.numbers[n - 2], s.numbers[n - 1]),
         numbers := s.numbers[..n - 2], operators := s.operators[..o - 1])
    else if |s.strings| > 1 && s.operators != [] then
      var n, o := |s.strings|, |s.operators|;
      s.(bools := s.bools + Compared(s.operators[o - 1], s.strings[n - 2], s.strings[n - 1]),
         strings := s.strings[..n - 2], operators := s.operators[..o - 1])
    else s.(continueProcessing := false, expressionResult := false)
  }

  function MustStep(s: PegState): PegState
  {
    if !s.continueProcessing then s
    else if s.bools == [] then s.(continueProcessing := false, expressionResult := false)
    else
      var rest := s.bools[..|s.bools| - 1];
      s.(bools := rest,
         expressionResult := s.bools[|s.bools| - 1] && s.strings == [] && s.numbers == [] && rest == [] && s.operators == [])
  }

  /** The number of names `SubnodeChildsVisitor` collects under a node: one per node below it
      whose parent carries the node's name, which is its children when no node below it shares
      its name (`Trees.SubnodeNamesOfChildren`). */
  function ChildCount(t: Tree): nat
  {
    |SubnodeNames(t, t.name)|
  }

  function CountStep(s: PegState): PegState
  {
    if !s.continueProcessing then s
    else if s.nodes == [] then s.(continueProcessing := false, expressionResult := false)
    else
      var top := s.nodes[|s.nodes| - 1];
      var rest := s.nodes[..|s.nodes| - 1];
      if top.None? then s.(nodes := rest, continueProcessing := false, expressionResult := true)
      else s.(nodes := rest, numbers := s.numbers + [ChildCount(top.value)])
  }

  /** Every child name of the current node, put in place of `@` in some reference attribute,
      selects a node. */
  predicate ReferencesExist(env: Env, refs: seq<string>)
  {
    forall name :: name in SubnodeNames(env.current, env.current.name) ==>
      exists r :: r in refs && env.selects(Strings.ReplaceAll(r, "@", name))
  }

  function ExistsStep(s: PegState, env: Env): PegState
  {
    if !s.continueProcessing then s
    else if s.strings != [] && s.strings[|s.strings| - 1] == "@" then
      var s1 := s.(strings := s.strings[..|s.strings| - 1]);
      match env.refs
      case None => s1.(continueProcessing := false)
      case Some(refs) =>
        if refs == [] then s1.(continueProcessing := false)
        else s1.(bools := s1.bools + [ReferencesExist(env, refs)])
    else if s.nodes == [] then s.(continueProcessing := false, expressionResult := false)
    else s.(nodes := [], bools := s.bools + [s.nodes[0].Some?])
  }

  /** The effect of one action; `None` is undefined behaviour (`then` reading the top of an
      empty boolean stack). */
  function Step(s: PegState, a: Action, env: Env): Option<PegState>
  {
    match a
    case Reference => Some(if s.continueProcessing then s.(strings := s.strings + ["@"]) else s)
    case NumberToken(n) => Some(if s.continueProcessing then s.(numbers := s.numbers + [n]) else s)
    case StringToken(t) => Some(if s.continueProcessing then s.(strings := s.strings + [t]) else s)
    case ConditionOperator(op) => Some(if s.continueProcessing then s.(operators := s.operators + [op]) else s)
    case Keyword(w) => KeywordStep(s, w)
    case Condition(k) => Some(ConditionStep(s, k))
    case MustFunc => Some(MustStep(s))
    case CountFunc => Some(CountStep(s))
    case ExistsFunc => Some(ExistsStep(s, env))
    case IfStatement => Some(s)
  }

  /** The actions fired in order, from state `s`. */
  function Run(s: PegState, actions: seq<Action>, env: Env): Option<PegState>
    decreases |actions|
  {
    if actions == [] then Some(s)
    else
      match Step(s, actions[0], env)
      case None => None
      case Some(s') => Run(s', actions[1..], env)
  }

  /** What `validate` returns: the final `expression_result`. */
  function ValidateSpec(actions: seq<Action>, env: Env): Option<bool>
  {
    match Run(Initial, actions, env)
    case None => None
    case Some(s) => Some(s.expressionResult)
  }

  // ---------------------------------------------------------------------------------------
  // Properties
  // ---------------------------------------------------------------------------------------

  /** Once processing has stopped, every action leaves the state alone. */
  lemma StoppedStep(s: PegState, a: Action, env: Env)
    requires !s.continueProcessing
    ensures Step(s, a, env) == Some(s)
  {
  }

  lemma {:induction false} StoppedStays(s: PegState, actions: seq<Action>, env: Env)
    requires !s.continueProcessing
    ensures Run(s, actions, env) == Some(s)
    decreases |actions|
  {
    if actions != [] {
      StoppedStep(s, actions[0], env);
      StoppedStays(s, actions[1..], env);
    }
  }

  /** Only `must`, `then` and `count` of a null node can set the result. */
  predicate CanSetResult(a: Action)
  {
    a == MustFunc || a == CountFunc || (a.Keyword? && Utils.Trim(a.word) == "then")
  }

  lemma {:induction false} ResultStaysFalse(s: PegState, actions: seq<Action>, env: Env)
    requires !s.expressionResult
    requires forall i :: 0 <= i < |actions| ==> !CanSetResult(actions[i])
    ensures Run(s, actions, env).Some? ==> !Run(s, actions, env).value.expressionResult
    decreases |actions|
  {
    if actions != [] {
      var a := actions[0];
      assert !CanSetResult(a);
      if Step(s, a, env).Some? {
        ResultStaysFalse(Step(s, a, env).value, actions[1..], env);
      }
    }
  }

  /** `validate` starts from a false result, so a constraint whose actions include no `must`,
      `then` or `count` never passes. */
  lemma ValidateNeedsVerdict(actions: seq<Action>, env: Env)
    requires forall i :: 0 <= i < |actions| ==> !CanSetResult(actions[i])
    ensures ValidateSpec(actions, env) != Some(true)
  {
    ResultStaysFalse(Initial, actions, env);
  }

  /** `must` passes exactly when the boolean it pops is true and every stack is then empty;
      with no boolean it stops with a false result. */
  lemma MustSpec(s: PegState)
    requires s.continueProcessing
    ensures s.bools == [] ==> !MustStep(s).continueProcessing && !MustStep(s).expressionResult
    ensures s.bools != [] ==>
      MustStep(s).continueProcessing
      && |MustStep(s).bools| == |s.bools| - 1
      && (MustStep(s).expressionResult <==>
            s.bools == [true] && s.strings == [] && s.numbers == [] && s.operators == [])
  {
    if s.bools != [] && MustStep(s).expressionResult {
      assert s.bools == [s.bools[0]];
    }
  }

  /** `then` continues exactly when the condition held; when it did not, the constraint
      passes. The value stacks are emptied and the operator stack is kept. */
  lemma ThenSpec(s: PegState)
    requires s.continueProcessing && s.bools != []
    ensures KeywordStep(s, "then").Some?
    ensures var r := KeywordStep(s, "then").value;
      r.continueProcessing == s.bools[|s.bools| - 1]
      && (!r.continueProcessing ==> r.expressionResult)
      && (r.continueProcessing ==> r.expressionResult == s.expressionResult)
      && r.bools == [] && r.nodes == [] && r.numbers == [] && r.strings == [] && r.operators == s.operators
  {
    TrimKeywords();
  }

  /** `exists` on nodes: false on an empty stack; otherwise the stack is drained and the
      pushed boolean says whether its bottom entry was a node. */
  lemma ExistsNodesSpec(s: PegState, env: Env)
    requires s.continueProcessing && (s.strings == [] || s.strings[|s.strings| - 1] != "@")
    ensures s.nodes == [] ==> !ExistsStep(s, env).continueProcessing && !ExistsStep(s, env).expressionResult
    ensures s.nodes != [] ==>
      ExistsStep(s, env).nodes == [] && ExistsStep(s, env).bools == s.bools + [s.nodes[0].Some?]
  {
  }

  /** `count`: a null node stops processing with a passing result; a node is replaced by
      the number of names `SubnodeChildsVisitor` collects under it (`ChildCount`), which is 0
      for a node without children and the number of children when no node below it shares
      its name. */
  lemma CountSpec(s: PegState)
    requires s.continueProcessing && s.nodes != []
    ensures var top := s.nodes[|s.nodes| - 1]; var r := CountStep(s);
      r.nodes == s.nodes[..|s.nodes| - 1]
      && (top.None? ==> !r.continueProcessing && r.expressionResult && r.numbers == s.numbers)
      && (top.Some? ==> r.continueProcessing && r.numbers == s.numbers + [ChildCount(top.value)]
                        && (top.value.kids == [] ==> r.numbers == s.numbers + [0])
                        && ((forall d :: Within(d, top.value) ==> d.name != top.value.name) ==>
                              r.numbers == s.numbers + [|top.value.kids|]))
  {
    var top := s.nodes[|s.nodes| - 1];
    if top.Some? && top.value.kids == [] {
      AcceptChildless(top.value, "", [], SubnodeVisit(top.value.name));
    }
    if top.Some? && forall d :: Within(d, top.value) ==> d.name != top.value.name {
      SubnodeNamesOfChildren(top.value);
    }
  }

  /** Firing an action whose effect is known. */
  lemma RunStep(s: PegState, a: Action, rest: seq<Action>, env: Env, s': PegState)
    requires Step(s, a, env) == Some(s')
    ensures Run(s, [a] + rest, env) == Run(s', rest, env)
  {
    assert ([a] + rest)[1..] == rest;
  }

  lemma TrimKeywords()
    ensures Utils.Trim("then") == "then" && Utils.Trim("if") == "if" && Utils.Trim("false") == "false"
  {
    Utils.TrimPlain("then");
    Utils.TrimPlain("if");
    Utils.TrimPlain("false");
  }

  /** `must(1 op 2)` as the parser fires it: two numbers, the operator, the condition and
      `must`. */
  lemma MustCompare(op: string, m: int, n: int, env: Env)
    ensures ValidateSpec([NumberToken(m), ConditionOperator(op), NumberToken(n), Condition(3), MustFunc], env)
      == Some((op == "=" && m == n) || (op == "~" && m != n))
  {
    var s1 := Initial.(numbers := [m]);
    var s2 := s1.(operators := [op]);
    var s3 := s2.(numbers := [m, n]);
    assert Initial.numbers + [m] == [m] && Initial.operators + [op] == [op] && [m] + [n] == [m, n];
    var s4 := Initial.(bools := Compared(op, m, n));
    var s5 := MustStep(s4);
    assert s3.numbers[..0] == [];
    assert ConditionStep(s3, 3) == s4;
    assert s5.expressionResult == ((op == "=" && m == n) || (op == "~" && m != n));
    RunStep(s4, MustFunc, [], env, s5);
    RunStep(s3, Condition(3), [MustFunc], env, s4);
    RunStep(s2, NumberToken(n), [Condition(3), MustFunc], env, s3);
    RunStep(s1, ConditionOperator(op), [NumberToken(n), Condition(3), MustFunc], env, s2);
    RunStep(Initial, NumberToken(m), [ConditionOperator(op), NumberToken(n), Condition(3), MustFunc], env, s1);
  }

  /** `must(1 = 1)` passes, `must(1 = 2)` fails, and `must(1 & 1)` fails because `&` pushes
      nothing for `must` to read. */
  lemma MustExamples(env: Env)
    ensures ValidateSpec([NumberToken(1), ConditionOperator("="), NumberToken(1), Condition(3), MustFunc], env) == Some(true)
    ensures ValidateSpec([NumberToken(1), ConditionOperator("="), NumberToken(2), Condition(3), MustFunc], env) == Some(false)
    ensures ValidateSpec([NumberToken(1), ConditionOperator("&"), NumberToken(1), Condition(3), MustFunc], env) == Some(false)
  {
    MustCompare("=", 1, 1, env);
    MustCompare("=", 1, 2, env);
    MustCompare("&", 1, 1, env);
  }

  /** `if (false) then (...)`: a condition that does not hold makes the constraint pass and
      ignores what follows. */
  lemma IfFalsePasses(rest: seq<Action>, env: Env)
    ensures ValidateSpec([Keyword("if"), Keyword("false"), Keyword("then")] + rest, env) == Some(true)
  {
    var s2 := Initial.(bools := Initial.bools + [false]);
    KeywordIfStep(Initial, env);
    KeywordFalseStep(Initial, env);
    ThenSpec(s2);
    var s3 := KeywordStep(s2, "then").value;
    ValidateStops(Keyword("if"), Keyword("false"), Keyword("then"), rest, env, Initial, s2, s3);
  }

  /** `if` leaves the state alone. */
  lemma KeywordIfStep(s: PegState, env: Env)
    ensures Step(s, Keyword("if"), env) == Some(s)
  {
    Utils.TrimPlain("if");
  }

  /** `false` pushes false while processing goes on. */
  lemma KeywordFalseStep(s: PegState, env: Env)
    requires s.continueProcessing
    ensures Step(s, Keyword("false"), env) == Some(s.(bools := s.bools + [false]))
  {
  }

  /** Three actions that stop processing, and then anything: the result is where they left it. */
  lemma ValidateStops(a1: Action, a2: Action, a3: Action, rest: seq<Action>, env: Env,
                      s1: PegState, s2: PegState, s3: PegState)
    requires Step(Initial, a1, env) == Some(s1) && Step(s1, a2, env) == Some(s2) && Step(s2, a3, env) == Some(s3)
    requires !s3.continueProcessing
    ensures ValidateSpec([a1, a2, a3] + rest, env) == Some(s3.expressionResult)
  {
    RunThree(Initial, a1, a2, a3, rest, env, s1, s2, s3);
    StoppedStays(s3, rest, env);
  }

  /** Three actions whose effects are known, fired in a row. */
  lemma RunThree(s: PegState, a1: Action, a2: Action, a3: Action, rest: seq<Action>, env: Env,
                 s1: PegState, s2: PegState, s3: PegState)
    requires Step(s, a1, env) == Some(s1) && Step(s1, a2, env) == Some(s2) && Step(s2, a3, env) == Some(s3)
    ensures Run(s, [a1, a2, a3] + rest, env) == Run(s3, rest, env)
  {
    RunStep(s2, a3, rest, env, s3);
    RunStep(s1, a2, [a3] + rest, env, s2);
    RunStep(s, a1, [a2] + ([a3] + rest), env, s1);
    assert [a1, a2, a3] + rest == [a1] + ([a2] + ([a3] + rest));
  }

  // ---------------------------------------------------------------------------------------
  // PEGArgument and the actions
  // ---------------------------------------------------------------------------------------

  class PegArgument {
    var strings: seq<string>
    var numbers: seq<int>
    var bools: seq<bool>
    var operators: seq<string>
    var nodes: seq<Option<Tree>>
    var continueProcessing: bool
    var expressionResult: bool

    function State(): PegState
      reads this
    {
      PegState(strings, numbers, bools, operators, nodes, continueProcessing, expressionResult)
    }

    constructor ()
      ensures State() == Initial
    {
      strings, numbers, bools, operators, nodes := [], [], [], [], [];
      continueProcessing, expressionResult := true, false;
    }

    /** `REFERENCE`, `Number`, `String` and `ConditionOperator`: push the token. */
    method Push(a: Action)
      requires a.Reference? || a.NumberToken? || a.StringToken? || a.ConditionOperator?
      modifies this
      ensures Some(State()) == Step(old(State()), a, Env(Tree("", []), None, _ => false))
    {
      if !continueProcessing {
        return;
      }
      match a {
        case Reference => strings := strings + ["@"];
        case NumberToken(n) => numbers := numbers + [n];
        case StringToken(t) => strings := strings + [t];
        case ConditionOperator(op) => operators := operators + [op];
      }
    }

    /** `Keyword`; `defined` is false when `then` finds no boolean (the state is then left
        as it was). */
    method KeywordAction(word: string) returns (defined: bool)
      modifies this
      ensures defined <==> KeywordStep(old(State()), word).Some?
      ensures defined ==> State() == KeywordStep(old(State()), word).value
      ensures !defined ==> State() == old(State())
    {
      defined := true;
      if !continueProcessing {
        return;
      }
      if word == "true" {
        bools := bools + [true];
      } else if word == "false" {
        bools := bools + [false];
      } else if Utils.Trim(word) == "then" {
        if bools == [] {
          return false;
        }
        var top := bools[|bools| - 1];
        if !top {
          expressionResult := true;
        }
        continueProcessing := top;
        bools, nodes, numbers, strings := [], [], [], [];
      }
    }

    /** `CONDITION`. */
    method ConditionAction(values: nat)
      modifies this
      ensures State() == ConditionStep(old(State()), values)
    {
      if values != 3 || !continueProcessing {
        return;
      }
      if |bools| > 1 && operators != [] {
        var n, op := |bools|, operators[|operators| - 1];
        bools, operators := bools[..n - 2] + Compared(op, bools[n - 2], bools[n - 1]), operators[..|operators| - 1];
      } else if |numbers| > 1 && operators != [] {
        var n, op := |numbers|, operators[|operators| - 1];
        bools := bools + Compared(op, numbers[n - 2], numbers[n - 1]);
        numbers, operators := numbers[..n - 2], operators[..|operators| - 1];
      } else if |strings| > 1 && operators != [] {
        var n, op := |strings|, operators[|operators| - 1];
        bools := bools + Compared(op, strings[n - 2], strings[n - 1]);
        strings, operators := strings[..n - 2], operators[..|operators| - 1];
      } else {
        continueProcessing, expressionResult := false, false;
      }
    }

    /** `MUST_FUNC`. */
    method MustAction()
      modifies this
      ensures State() == MustStep(old(State()))
    {
      if !continueProcessing {
        return;
      }
      if bools == [] {
        continueProcessing, expressionResult := false, false;
        return;
      }
      var success := bools[|bools| - 1];
      bools := bools[..|bools| - 1];
      if strings != [] {
        success := false;
      }
      if numbers != [] {
        success := false;
      }
      if bools != [] {
        success := false;
      }
      if operators != [] {
        success := false;
      }
      expressionResult := success;
    }

    /** `COUNT_FUNC`: the children are counted by walking the collected names. */
    method CountAction()
      modifies this
      ensures State() == CountStep(old(State()))
    {
      if !continueProcessing {
        return;
      }
      if nodes == [] {
        continueProcessing, expressionResult := false, false;
        return;
      }
      var top := nodes[|nodes| - 1];
      if top.None? {
        nodes := nodes[..|nodes| - 1];
        continueProcessing, expressionResult := false, true;
        return;
      }
      nodes := nodes[..|nodes| - 1];
      var node := top.value;
      var subnodes := AcceptLoop(node, "", [], SubnodeVisit(node.name));
      var count := 0;
      var i := 0;
      while i < |subnodes|
        invariant 0 <= i <= |subnodes| && count == i
      {
        count := count + 1;
        i := i + 1;
      }
      numbers := numbers + [count];
    }

    /** `EXISTS_FUNC`. */
    method ExistsAction(env: Env)
      modifies this
      ensures State() == ExistsStep(old(State()), env)
    {
      if !continueProcessing {
        return;
      }
      if strings != [] && strings[|strings| - 1] == "@" {
        strings := strings[..|strings| - 1];
        if env.refs.None? || env.refs.value == [] {
          continueProcessing := false;
          return;
        }
        var found := CheckReferences(env, env.refs.value);
        bools := bools + [found];
        return;
      }
      if nodes == [] {
        continueProcessing, expressionResult := false, false;
        return;
      }
      var stack := nodes;
      var isAnyNodeExists := false;
      while stack != []
        invariant |stack| <= |nodes| && stack == nodes[..|stack|]
        invariant stack != nodes ==> isAnyNodeExists == nodes[|stack|].Some?
        decreases |stack|
      {
        isAnyNodeExists := stack[|stack| - 1].Some?;
        stack := stack[..|stack| - 1];
      }
      nodes, bools := stack, bools + [isAnyNodeExists];
    }

    /** One fired action. */
    method Perform(a: Action, env: Env) returns (defined: bool)
      modifies this
      ensures defined <==> Step(old(State()), a, env).Some?
      ensures defined ==> State() == Step(old(State()), a, env).value
    {
      defined := true;
      match a {
        case Reference => Push(a);
        case NumberToken(_) => Push(a);
        case StringToken(_) => Push(a);
        case ConditionOperator(_) => Push(a);
        case Keyword(w) => defined := KeywordAction(w);
        case Condition(k) => ConditionAction(k);
        case MustFunc => MustAction();
        case CountFunc => CountAction();
        case ExistsFunc => ExistsAction(env);
        case IfStatement =>
      }
    }
  }

  /** The loops of the `@` case of `exists`: for each child name, try the reference
      attributes in order until one, with `@` replaced by the name, selects a node; the
      first name without one gives false. */
  method CheckReferences(env: Env, refs: seq<string>) returns (found: bool)
    ensures found <==> ReferencesExist(env, refs)
  {
    var names := AcceptLoop(env.current, "", [], SubnodeVisit(env.current.name));
    var i := 0;
    while i < |names|
      invariant 0 <= i <= |names|
      invariant forall k :: 0 <= k < i ==> exists r :: r in refs && env.selects(Strings.ReplaceAll(r, "@", names[k]))
    {
      var j := 0;
      var hit := false;
      while j < |refs| && !hit
        invariant 0 <= j <= |refs|
        invariant hit ==> exists r :: r in refs && env.selects(Strings.ReplaceAll(r, "@", names[i]))
        invariant !hit ==> forall m :: 0 <= m < j ==> !env.selects(Strings.ReplaceAll(refs[m], "@", names[i]))
      {
        if env.selects(Strings.ReplaceAll(refs[j], "@", names[i])) {
          hit := true;
        }
        j := j + 1;
      }
      if !hit {
        forall r | r in refs ensures !env.selects(Strings.ReplaceAll(r, "@", names[i])) {
          var m :| 0 <= m < |refs| && refs[m] == r;
        }
        assert names[i] in SubnodeNames(env.current, env.current.name);
        return false;
      }
      i := i + 1;
    }
    found := true;
  }

  /** `validate`: a fresh `PEGArgument`, the actions fired in order, and the final result. */
  method Validate(actions: seq<Action>, env: Env) returns (result: Option<bool>)
    ensures result == ValidateSpec(actions, env)
  {
    var pegArg := new PegArgument();
    var i := 0;
    while i < |actions|
      invariant 0 <= i <= |actions|
      invariant Run(Initial, actions, env) == Run(pegArg.State(), actions[i..], env)
    {
      assert actions[i..][0] == actions[i] && actions[i..][1..] == actions[i + 1..];
      var defined := pegArg.Perform(actions[i], env);
      if !defined {
        return None;
      }
      i := i + 1;
    }
    return Some(pegArg.expressionResult);
  }
}
