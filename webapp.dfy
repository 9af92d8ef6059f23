/** The action server of src/webapp.py: it turns an add/replace/remove request on a
    configuration path into a fixed sequence of `call_xrl` commands. The external tool is an
    oracle from the commands issued so far (the last one being the current call) to its exit
    status and standard output. */
module WebApp {
  import opened Wrappers
  import opened Strings

  const EthIntfPrefix := "eth"
  const LagIntfPrefix := "ae"
  const PortXPath := "/platform/port"
  const LagIntfXPath := "/interface/aggregate-ethernet"
  const VlanXPath := "/vlan/id"
  const CallXrl := "/sbin/ip netns exec default /usr/bin/lib/libxipc/call_xrl -w 30"
  const SwitchPortConfig := "switch_port_config"
  const VlanConfig := "vlan_config"

  /** Exit status and standard output of one external command. */
  datatype Reply = Reply(status: int, stdout: string)

  /** The external tool: the reply to the last command of a history. */
  type Tool = seq<string> -> Reply

  // ---------------------------------------------------------------------------------------
  // Interface-name normalisers
  // ---------------------------------------------------------------------------------------

  /** `normalize_lag_ifname`: every `-` deleted, every other character kept in order. */
  function NormalizeLag(ifname: string): (r: string)
    ensures r == Without(ifname, '-')
  {
    DeleteCharIsWithout(ifname, '-');
    ReplaceAll(ifname, "-", "")
  }

  lemma NormalizeLagIdempotent(ifname: string)
    ensures NormalizeLag(NormalizeLag(ifname)) == NormalizeLag(ifname)
  {
    WithoutIdempotent(ifname, '-');
  }

  /** `normalize_eth_ifname`: `-` and `_` become `/`, then `"eth-1/1/"` is put in front of
      what follows index 4 (nothing when the name is shorter). */
  function NormalizeEth(ifname: string): (r: string)
    ensures |r| == 8 + (if |ifname| > 4 then |ifname| - 4 else 0)
    ensures r[..8] == "eth-1/1/"
    ensures forall i :: 4 <= i < |ifname| ==>
      r[i + 4] == if ifname[i] == '-' || ifname[i] == '_' then '/' else ifname[i]
  {
    var dashes := ReplaceAll(ifname, "-", "/");
    var both := ReplaceAll(dashes, "_", "/");
    ReplaceCharAt(ifname, '-', '/');
    ReplaceCharAt(dashes, '_', '/');
    "eth-1/1/" + (if |both| >= 4 then both[4..] else "")
  }

  /** `normalize_eth_ifname` is not idempotent: a second application prefixes again. */
  lemma NormalizeEthNotIdempotent()
    ensures NormalizeEth("eth-2") == "eth-1/1/2"
    ensures NormalizeEth(NormalizeEth("eth-2")) == "eth-1/1/1/1/2"
    ensures NormalizeEth(NormalizeEth("eth-2")) != NormalizeEth("eth-2")
  {
    NormalizeEthOnce();
    NormalizeEthTwice();
  }

  lemma NormalizeEthOnce()
    ensures NormalizeEth("eth-2") == "eth-1/1/2"
  {
    var r := NormalizeEth("eth-2");
    var e := "eth-1/1/2";
    forall i | 0 <= i < 9 ensures r[i] == e[i] {
      if i < 8 { assert r[i] == r[..8][i]; }
    }
  }

  lemma NormalizeEthTwice()
    ensures NormalizeEth("eth-1/1/2") == "eth-1/1/1/1/2"
  {
    var x := "eth-1/1/2";
    var q := NormalizeEth(x);
    var f := "eth-1/1/1/1/2";
    forall i | 0 <= i < 13 ensures q[i] == f[i] {
      if i < 8 { assert q[i] == q[..8][i]; } else { assert q[i] == x[i - 4]; }
    }
  }

  /** Member names of a VLAN: eth-normalised if they contain "eth", else LAG-normalised if
      they contain "ae", else unchanged. */
  function VlanMemberName(member: string): (r: string)
    ensures Contains(member, EthIntfPrefix) ==> r == NormalizeEth(member)
    ensures !Contains(member, EthIntfPrefix) && Contains(member, LagIntfPrefix) ==> r == Without(member, '-')
    ensures !Contains(member, EthIntfPrefix) && !Contains(member, LagIntfPrefix) ==> r == member
  {
    if Contains(member, EthIntfPrefix) then NormalizeEth(member)
    else if Contains(member, LagIntfPrefix) then NormalizeLag(member)
    else member
  }

  /** The breakout mode sent for a value: "none" is sent as "no", anything else unchanged. */
  function BreakoutMode(value: string): (r: string)
    ensures value == "none" <==> r == "no" && value != "no"
    ensures value != "none" ==> r == value
  {
    if value == "none" then "no" else value
  }

  // ---------------------------------------------------------------------------------------
  // Commands
  // ---------------------------------------------------------------------------------------

  /** Python `str.isspace` for the characters `str.strip()` removes. */
  predicate IsPySpace(c: char)
  {
    c == ' ' || ('\t' <= c <= '\r') || ('\U{1C}' <= c <= '\U{1F}') || c == '\U{85}'
    || c == '\U{A0}' || c == '\U{1680}' || ('\U{2000}' <= c <= '\U{200A}') || c == '\U{2028}'
    || c == '\U{2029}' || c == '\U{202F}' || c == '\U{205F}' || c == '\U{3000}'
  }

  /** `str.strip()` with no argument. */
  function PyStrip(s: string): (r: string)
    ensures r == [] || (!IsPySpace(r[0]) && !IsPySpace(r[|r| - 1]))
    decreases |s|
  {
    if s != [] && IsPySpace(s[0]) then PyStrip(s[1..])
    else if s != [] && IsPySpace(s[|s| - 1]) then PyStrip(s[..|s| - 1])
    else s
  }

  /** `r` is the piece of `s` that starts at `i`, and only Python whitespace lies around it. */
  ghost predicate PyInnerPart(s: string, r: string, i: int)
  {
    0 <= i <= |s| - |r| && r == s[i..i + |r|]
    && (forall k :: 0 <= k < i ==> IsPySpace(s[k]))
    && (forall k :: i + |r| <= k < |s| ==> IsPySpace(s[k]))
  }

  /** `str.strip()` keeps a contiguous piece of its argument and drops only whitespace around
      it. */
  lemma {:induction false} PyStripIsInnerPart(s: string)
    ensures exists i :: PyInnerPart(s, PyStrip(s), i)
    decreases |s|
  {
    var r := PyStrip(s);
    if s != [] && IsPySpace(s[0]) {
      var t := s[1..];
      PyStripIsInnerPart(t);
      var i :| PyInnerPart(t, r, i);
      assert r == s[i + 1..i + 1 + |r|];
      forall k | 0 <= k < i + 1 ensures IsPySpace(s[k]) {
        if k > 0 { assert s[k] == t[k - 1]; }
      }
      forall k | i + 1 + |r| <= k < |s| ensures IsPySpace(s[k]) {
        assert s[k] == t[k - 1];
      }
      assert PyInnerPart(s, r, i + 1);
    } else if s != [] && IsPySpace(s[|s| - 1]) {
      var t := s[..|s| - 1];
      PyStripIsInnerPart(t);
      var i :| PyInnerPart(t, r, i);
      assert r == s[i..i + |r|];
      forall k | i + |r| <= k < |s| ensures IsPySpace(s[k]) {
        if k < |s| - 1 { assert s[k] == t[k]; }
      }
      assert PyInnerPart(s, r, i);
    } else {
      assert PyInnerPart(s, r, 0);
    }
  }

  /** The shell command for one XRL call on a service. */
  function Xrl(service: string, call: string): string
  {
    CallXrl + " \"finder://sif/" + service + "/0.1/" + call + "\""
  }

  function StartCommand(service: string): string { Xrl(service, "start_transaction") }

  function MutateCommand(service: string, verb: string, tid: string, args: string): string
  {
    Xrl(service, verb + "?" + tid + args)
  }

  function CommitCommand(service: string, tid: string): string
  {
    Xrl(service, "commit_transaction?" + tid)
  }

  // ---------------------------------------------------------------------------------------
  // The start -> mutate -> commit protocol
  // ---------------------------------------------------------------------------------------

  /** `log` extends `prior` by a run of the transaction protocol on `service`:
      start first; the stripped output of start is the tid of both later commands; every
      call but the last of the run succeeded; the run stops at the first nonzero status;
      `ok` exactly when three calls were made and all succeeded. */
  predicate Transacted(tool: Tool, prior: seq<string>, log: seq<string>, ok: bool,
                       service: string, verb: string, args: string)
  {
    var p := |prior|;
    p < |log| <= p + 3 && log[..p] == prior
    && log[p] == StartCommand(service)
    && (var tid := PyStrip(tool(log[..p + 1]).stdout);
        (p + 1 < |log| ==> log[p + 1] == MutateCommand(service, verb, tid, args))
        && (p + 2 < |log| ==> log[p + 2] == CommitCommand(service, tid)))
    && (forall k :: p < k < |log| ==> tool(log[..k]).status == 0)
    && (ok <==> |log| == p + 3 && tool(log).status == 0)
    && (!ok ==> tool(log).status != 0)
  }

  /** One start -> mutate -> commit routine body, after the commands in `prior`. */
  method RunTransaction(tool: Tool, prior: seq<string>, service: string, verb: string, args: string)
    returns (ok: bool, log: seq<string>)
    ensures Transacted(tool, prior, log, ok, service, verb, args)
  {
    log := prior + [StartCommand(service)];
    assert log[..|prior|] == prior;
    var reply := tool(log);
    if reply.status != 0 {
      return false, log;
    }
    var tid := PyStrip(reply.stdout);
    ghost var started := log;
    log := log + [MutateCommand(service, verb, tid, args)];
    assert log[..|prior|] == prior && log[..|prior| + 1] == started;
    if tool(log).status != 0 {
      return false, log;
    }
    ghost var mutated := log;
    log := log + [CommitCommand(service, tid)];
    assert log[..|prior|] == prior && log[..|prior| + 1] == started && log[..|prior| + 2] == mutated;
    if tool(log).status != 0 {
      return false, log;
    }
    return true, log;
  }

  // ---------------------------------------------------------------------------------------
  // What each routine sends
  // ---------------------------------------------------------------------------------------

  /** The commands of one routine: nothing at all (with the routine's result), or a
      transaction optionally preceded or followed by one call without a tid. */
  datatype Plan =
    | NoCall(result: bool)
    | Steps(before: Option<string>, service: string, verb: string, args: string, after: Option<string>)

  /** `issued` and `ok` are what a routine with plan `plan` does against `tool`. */
  predicate Follows(tool: Tool, plan: Plan, issued: seq<string>, ok: bool)
  {
    match plan
    case NoCall(result) => issued == [] && ok == result
    case Steps(before, service, verb, args, after) =>
      if before.Some? then
        |issued| >= 1 && issued[0] == before.value
        && (if tool([before.value]).status != 0 then issued == [before.value] && !ok
            else Transacted(tool, [before.value], issued, ok, service, verb, args))
      else if after.Some? then
        (|issued| <= 3 && !ok && Transacted(tool, [], issued, false, service, verb, args))
        || (|issued| == 4 && Transacted(tool, [], issued[..3], true, service, verb, args)
            && issued[3] == after.value && ok == (tool(issued).status == 0))
      else Transacted(tool, [], issued, ok, service, verb, args)
  }

  /** `process_create_lag` and `process_delete_lag`. */
  function LagPlan(verb: string, ifname: string): Plan
  {
    Steps(None, SwitchPortConfig, verb, "&ifname:txt=" + NormalizeLag(ifname), None)
  }

  /** `process_add_lag_member` and `process_remove_lag_member`: the LAG is the second-to-last
      path segment with `-` deleted; the member is eth-normalised. A path without `/` makes
      Python raise IndexError before any command. */
  function LagMemberPlan(verb: string, xpath: string, member: string): Plan
  {
    match SecondToLast(xpath, '/')
    case None => NoCall(false)
    case Some(seg) =>
      Steps(None, SwitchPortConfig, verb,
            "&ifname:txt=" + NormalizeEth(member) + "&lag_name:txt=" + NormalizeLag(seg), None)
  }

  /** `process_create_vlan` and `process_delete_vlan`. */
  function VlanPlan(verb: string, vlan: string): Plan
  {
    Steps(None, VlanConfig, verb, "&vlan_id:u32=" + vlan, None)
  }

  function AddToVlanCommand(member: string, vlan: string): string
  {
    Xrl(VlanConfig, "add_port_to_vlan?ifname:txt=" + member + "&vlan_id:u32=" + vlan)
  }

  function DeleteFromVlanCommand(member: string, vlan: string): string
  {
    Xrl(VlanConfig, "delete_port_from_vlan?ifname:txt=" + member + "&vlan_id:u32=" + vlan)
  }

  /** `process_add_vlan_member`: trunk mode in a transaction, then `add_port_to_vlan`. */
  function AddVlanMemberPlan(xpath: string, member: string): Plan
  {
    match SecondToLast(xpath, '/')
    case None => NoCall(false)
    case Some(vlan) =>
      var m := VlanMemberName(member);
      Steps(None, SwitchPortConfig, "set_port_mode", "&ifname:txt=" + m + "&mode:txt=trunk",
            Some(AddToVlanCommand(m, vlan)))
  }

  /** `process_remove_vlan_member`: `delete_port_from_vlan` first, then access mode in a
      transaction. */
  function RemoveVlanMemberPlan(xpath: string, member: string): Plan
  {
    match SecondToLast(xpath, '/')
    case None => NoCall(false)
    case Some(vlan) =>
      var m := VlanMemberName(member);
      Steps(Some(DeleteFromVlanCommand(m, vlan)), SwitchPortConfig, "set_port_mode",
            "&ifname:txt=" + m + "&mode:txt=access", None)
  }

  /** `process_port_breakout_mode`: the port is the second-to-last segment, eth-normalised. */
  function BreakoutPlan(xpath: string, value: string): Plan
  {
    match SecondToLast(xpath, '/')
    case None => NoCall(false)
    case Some(port) =>
      Steps(None, SwitchPortConfig, "set_port_split",
            "&ifname:txt=" + NormalizeEth(port) + "&split:txt=" + BreakoutMode(value), None)
  }

  // ---------------------------------------------------------------------------------------
  // The routines
  // ---------------------------------------------------------------------------------------

  method ProcessCreateLag(tool: Tool, ifname: string) returns (ok: bool, issued: seq<string>)
    ensures Follows(tool, LagPlan("create_port", ifname), issued, ok)
  {
    var name := ReplaceAll(ifname, "-", "");
    ok, issued := RunTransaction(tool, [], SwitchPortConfig, "create_port", "&ifname:txt=" + name);
  }

  method ProcessDeleteLag(tool: Tool, ifname: string) returns (ok: bool, issued: seq<string>)
    ensures Follows(tool, LagPlan("delete_port", ifname), issued, ok)
  {
    var name := ReplaceAll(ifname, "-", "");
    ok, issued := RunTransaction(tool, [], SwitchPortConfig, "delete_port", "&ifname:txt=" + name);
  }

  /** Shared body of `process_add_lag_member` / `process_remove_lag_member`. */
  method ProcessLagMember(tool: Tool, verb: string, xpath: string, member: string)
    returns (ok: bool, issued: seq<string>)
    ensures Follows(tool, LagMemberPlan(verb, xpath, member), issued, ok)
  {
    var parts := SplitOn(xpath, '/');
    SplitOnCount(xpath, '/');
    if |parts| < 2 {
      return false, [];
    }
    var ifname := ReplaceAll(parts[|parts| - 2], "-", "");
    var m := NormalizeEth(member);
    ok, issued := RunTransaction(tool, [], SwitchPortConfig, verb,
                                 "&ifname:txt=" + m + "&lag_name:txt=" + ifname);
  }

  method ProcessAddLagMember(tool: Tool, xpath: string, member: string) returns (ok: bool, issued: seq<string>)
    ensures Follows(tool, LagMemberPlan("add_port_to_lag", xpath, member), issued, ok)
  {
    ok, issued := ProcessLagMember(tool, "add_port_to_lag", xpath, member);
  }

  method ProcessRemoveLagMember(tool: Tool, xpath: string, member: string) returns (ok: bool, issued: seq<string>)
    ensures Follows(tool, LagMemberPlan("remove_port_from_lag", xpath, member), issued, ok)
  {
    ok, issued := ProcessLagMember(tool, "remove_port_from_lag", xpath, member);
  }

  method ProcessCreateVlan(tool: Tool, vlan: string) returns (ok: bool, issued: seq<string>)
    ensures Follows(tool, VlanPlan("create_vlan_id", vlan), issued, ok)
  {
    ok, issued := RunTransaction(tool, [], VlanConfig, "create_vlan_id", "&vlan_id:u32=" + vlan);
  }

  method ProcessDeleteVlan(tool: Tool, vlan: string) returns (ok: bool, issued: seq<string>)
    ensures Follows(tool, VlanPlan("delete_vlan_id", vlan), issued, ok)
  {
    ok, issued := RunTransaction(tool, [], VlanConfig, "delete_vlan_id", "&vlan_id:u32=" + vlan);
  }

  method ProcessAddVlanMember(tool: Tool, xpath: string, member: string) returns (ok: bool, issued: seq<string>)
    ensures Follows(tool, AddVlanMemberPlan(xpath, member), issued, ok)
  {
    var parts := SplitOn(xpath, '/');
    SplitOnCount(xpath, '/');
    if |parts| < 2 {
      return false, [];
    }
    var vlan := parts[|parts| - 2];
    var m := VlanMemberName(member);
    ok, issued := RunTransaction(tool, [], SwitchPortConfig, "set_port_mode",
                                 "&ifname:txt=" + m + "&mode:txt=trunk");
    if !ok {
      return;
    }
    ghost var transaction := issued;
    issued := issued + [AddToVlanCommand(m, vlan)];
    assert issued[..3] == transaction;
    ok := tool(issued).status == 0;
  }

  method ProcessRemoveVlanMember(tool: Tool, xpath: string, member: string) returns (ok: bool, issued: seq<string>)
    ensures Follows(tool, RemoveVlanMemberPlan(xpath, member), issued, ok)
  {
    var parts := SplitOn(xpath, '/');
    SplitOnCount(xpath, '/');
    if |parts| < 2 {
      return false, [];
    }
    var vlan := parts[|parts| - 2];
    var m := VlanMemberName(member);
    issued := [DeleteFromVlanCommand(m, vlan)];
    if tool(issued).status != 0 {
      return false, issued;
    }
    ok, issued := RunTransaction(tool, issued, SwitchPortConfig, "set_port_mode",
                                 "&ifname:txt=" + m + "&mode:txt=access");
  }

  method ProcessPortBreakoutMode(tool: Tool, xpath: string, value: string) returns (ok: bool, issued: seq<string>)
    ensures Follows(tool, BreakoutPlan(xpath, value), issued, ok)
  {
    var parts := SplitOn(xpath, '/');
    SplitOnCount(xpath, '/');
    if |parts| < 2 {
      return false, [];
    }
    var ifname := NormalizeEth(parts[|parts| - 2]);
    var mode := value;
    if mode == "none" {
      mode := "no";
    }
    ok, issued := RunTransaction(tool, [], SwitchPortConfig, "set_port_split",
                                 "&ifname:txt=" + ifname + "&split:txt=" + mode);
  }

  // ---------------------------------------------------------------------------------------
  // Routing
  // ---------------------------------------------------------------------------------------

  datatype Route =
    | CreateLag | DeleteLag | AddLagMember | RemoveLagMember
    | CreateVlan | DeleteVlan | AddVlanMember | RemoveVlanMember
    | Breakout | NoAction

  predicate IsBreakoutPath(xpath: string)
  {
    Contains(xpath, PortXPath) && Contains(xpath, "breakout-mode")
  }

  /** `process_add_op`: the first matching rule wins. */
  function AddRoute(xpath: string): Route
  {
    if xpath == LagIntfXPath then CreateLag
    else if Contains(xpath, LagIntfXPath) then AddLagMember
    else if xpath == VlanXPath then CreateVlan
    else if Contains(xpath, VlanXPath) then AddVlanMember
    else if IsBreakoutPath(xpath) then Breakout
    else NoAction
  }

  /** `process_replace_op`: only breakout-mode paths do anything. */
  function ReplaceRoute(xpath: string): Route
  {
    if IsBreakoutPath(xpath) then Breakout else NoAction
  }

  /** `process_remove_op`. */
  function RemoveRoute(xpath: string): Route
  {
    if xpath == LagIntfXPath then DeleteLag
    else if Contains(xpath, LagIntfXPath) then RemoveLagMember
    else if xpath == VlanXPath then DeleteVlan
    else if Contains(xpath, VlanXPath) then RemoveVlanMember
    else if IsBreakoutPath(xpath) then Breakout
    else NoAction
  }

  /** `do_POST`: "add", "replace", and every other op is a removal. */
  function OpRoute(op: string, xpath: string): Route
  {
    if op == "add" then AddRoute(xpath)
    else if op == "replace" then ReplaceRoute(xpath)
    else RemoveRoute(xpath)
  }

  /** The undo counterpart of an add route. */
  function Mirror(r: Route): Route
  {
    match r
    case CreateLag => DeleteLag
    case AddLagMember => RemoveLagMember
    case CreateVlan => DeleteVlan
    case AddVlanMember => RemoveVlanMember
    case _ => r
  }

  /** Removal routes every path exactly like addition, to the opposite routine. */
  lemma RemoveMirrorsAdd(xpath: string)
    ensures RemoveRoute(xpath) == Mirror(AddRoute(xpath))
    ensures AddRoute(xpath) == NoAction <==> RemoveRoute(xpath) == NoAction
  {
  }

  /** Replace acts only on breakout-mode paths; every path add sends to breakout, replace
      sends there too. */
  lemma ReplaceOnlyBreakout(xpath: string)
    ensures ReplaceRoute(xpath) in {Breakout, NoAction}
    ensures ReplaceRoute(xpath) == Breakout <==> IsBreakoutPath(xpath)
    ensures AddRoute(xpath) == Breakout ==> ReplaceRoute(xpath) == Breakout
  {
  }

  /** Any op other than "add" and "replace" is routed as a removal. */
  lemma OtherOpsRemove(op: string, xpath: string)
    requires op != "add" && op != "replace"
    ensures OpRoute(op, xpath) == RemoveRoute(xpath)
  {
  }

  /** Every path routed to a member or breakout routine has a second-to-last segment, so the
      IndexError case of those routines is never reached through routing. */
  lemma RoutedPathsHaveParentSegment(op: string, xpath: string)
    requires OpRoute(op, xpath) in {AddLagMember, RemoveLagMember, AddVlanMember, RemoveVlanMember, Breakout}
    ensures SecondToLast(xpath, '/').Some?
  {
    if Contains(xpath, LagIntfXPath) {
      ContainsChar(xpath, LagIntfXPath, 0);
    } else if Contains(xpath, VlanXPath) {
      ContainsChar(xpath, VlanXPath, 0);
    } else {
      ContainsChar(xpath, PortXPath, 0);
    }
  }

  /** The plan of the routine a route selects. */
  function RoutePlan(route: Route, xpath: string, value: string): Plan
  {
    match route
    case CreateLag => LagPlan("create_port", value)
    case DeleteLag => LagPlan("delete_port", value)
    case AddLagMember => LagMemberPlan("add_port_to_lag", xpath, value)
    case RemoveLagMember => LagMemberPlan("remove_port_from_lag", xpath, value)
    case CreateVlan => VlanPlan("create_vlan_id", value)
    case DeleteVlan => VlanPlan("delete_vlan_id", value)
    case AddVlanMember => AddVlanMemberPlan(xpath, value)
    case RemoveVlanMember => RemoveVlanMemberPlan(xpath, value)
    case Breakout => BreakoutPlan(xpath, value)
    case NoAction => NoCall(true)
  }

  method RunRoute(tool: Tool, route: Route, xpath: string, value: string) returns (ok: bool, issued: seq<string>)
    ensures Follows(tool, RoutePlan(route, xpath, value), issued, ok)
  {
    match route {
      case CreateLag => ok, issued := ProcessCreateLag(tool, value);
      case DeleteLag => ok, issued := ProcessDeleteLag(tool, value);
      case AddLagMember => ok, issued := ProcessAddLagMember(tool, xpath, value);
      case RemoveLagMember => ok, issued := ProcessRemoveLagMember(tool, xpath, value);
      case CreateVlan => ok, issued := ProcessCreateVlan(tool, value);
      case DeleteVlan => ok, issued := ProcessDeleteVlan(tool, value);
      case AddVlanMember => ok, issued := ProcessAddVlanMember(tool, xpath, value);
      case RemoveVlanMember => ok, issued := ProcessRemoveVlanMember(tool, xpath, value);
      case Breakout => ok, issued := ProcessPortBreakoutMode(tool, xpath, value);
      case NoAction => ok, issued := true, [];
    }
  }

  method ProcessAddOp(tool: Tool, xpath: string, value: string) returns (ok: bool, issued: seq<string>)
    ensures Follows(tool, RoutePlan(AddRoute(xpath), xpath, value), issued, ok)
    ensures AddRoute(xpath) == NoAction ==> ok && issued == []
  {
    ok, issued := RunRoute(tool, AddRoute(xpath), xpath, value);
  }

  method ProcessReplaceOp(tool: Tool, xpath: string, value: string) returns (ok: bool, issued: seq<string>)
    ensures Follows(tool, RoutePlan(ReplaceRoute(xpath), xpath, value), issued, ok)
    ensures !IsBreakoutPath(xpath) ==> ok && issued == []
  {
    ok, issued := RunRoute(tool, ReplaceRoute(xpath), xpath, value);
  }

  method ProcessRemoveOp(tool: Tool, xpath: string, value: string) returns (ok: bool, issued: seq<string>)
    ensures Follows(tool, RoutePlan(RemoveRoute(xpath), xpath, value), issued, ok)
    ensures RemoveRoute(xpath) == NoAction ==> ok && issued == []
  {
    ok, issued := RunRoute(tool, RemoveRoute(xpath), xpath, value);
  }

  /** `do_POST`: dispatches on the op and answers 200 only when the routine returned True;
      otherwise it writes no response at all. */
  method DoPost(tool: Tool, op: string, xpath: string, value: string) returns (responded: bool, issued: seq<string>)
    ensures exists ok :: Follows(tool, RoutePlan(OpRoute(op, xpath), xpath, value), issued, ok) && responded == ok
  {
    var ok: bool;
    if op == "add" {
      ok, issued := ProcessAddOp(tool, xpath, value);
    } else if op == "replace" {
      ok, issued := ProcessReplaceOp(tool, xpath, value);
    } else {
      ok, issued := ProcessRemoveOp(tool, xpath, value);
    }
    responded := ok;
    assert Follows(tool, RoutePlan(OpRoute(op, xpath), xpath, value), issued, ok);
  }
}
