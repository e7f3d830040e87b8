/** Comparing a recovery plan with what the nodes report, and the verdict drawn from it. */
module RecoveryDiff {
  import opened Common

  /** Plan identifiers are UUIDs; only equality matters. */
  datatype NodeStatus = NodeStatus(node: int, applied: Option<int>, pending: Option<int>, error: string)

  /** `updates` lists the node of each replica update. */
  datatype Plan = Plan(id: int, updates: seq<int>, staleLeaseholders: seq<int>)

  datatype Kind =
    | ApplicationFailed | AppliedHere | PendingHere | OtherPlanStaged | NothingStaged
    | StagedUnplanned | UnplannedOther | NodeMissing | Info

  datatype Line = Line(kind: Kind, node: int)

  predicate CountsAsError(k: Kind) {
    k != AppliedHere && k != PendingHere && k != Info
  }

  function Named(plan: Plan): set<int> {
    (set x | x in plan.updates) + (set x | x in plan.staleLeaseholders)
  }

  /** The plan names the nodes it updates and those with stale leases. */
  lemma NamedIs(plan: Plan, n: int)
    ensures n in Named(plan) <==> n in plan.updates || n in plan.staleLeaseholders
  {
  }

  function PendingLines(report: seq<Line>): nat {
    if report == [] then 0
    else PendingLines(report[..|report| - 1]) + if report[|report| - 1].kind == PendingHere then 1 else 0
  }

  function ErrorLines(report: seq<Line>): nat {
    if report == [] then 0
    else ErrorLines(report[..|report| - 1]) + if CountsAsError(report[|report| - 1].kind) then 1 else 0
  }

  lemma CountSnoc(report: seq<Line>, line: Line)
    ensures PendingLines(report + [line]) == PendingLines(report) + if line.kind == PendingHere then 1 else 0
    ensures ErrorLines(report + [line]) == ErrorLines(report) + if CountsAsError(line.kind) then 1 else 0
  {
    assert (report + [line])[..|report|] == report;
  }

  class ClusterDiff {
    var report: seq<Line>
    var pending: nat
    var errors: nat

    constructor ()
      ensures report == [] && Valid()
    {
      report, pending, errors := [], 0, 0;
    }

    /** The counters count the lines. */
    ghost predicate Valid()
      reads this
    {
      pending == PendingLines(report) && errors == ErrorLines(report)
    }

    method Append(line: Line)
      requires Valid() && (line.kind == AppliedHere || line.kind == Info)
      modifies this
      ensures Valid() && report == old(report) + [line] && pending == old(pending) && errors == old(errors)
    {
      CountSnoc(report, line);
      report := report + [line];
    }

    method AppendPending(line: Line)
      requires Valid() && line.kind == PendingHere
      modifies this
      ensures Valid() && report == old(report) + [line] && pending == old(pending) + 1 && errors == old(errors)
    {
      CountSnoc(report, line);
      report := report + [line];
      pending := pending + 1;
    }

    method AppendError(line: Line)
      requires Valid() && CountsAsError(line.kind)
      modifies this
      ensures Valid() && report == old(report) + [line] && pending == old(pending) && errors == old(errors) + 1
    {
      CountSnoc(report, line);
      report := report + [line];
      errors := errors + 1;
    }
  }

  /** How many lines speak of a node. */
  function LinesFor(report: seq<Line>, n: int): nat {
    if report == [] then 0
    else LinesFor(report[..|report| - 1], n) + if report[|report| - 1].node == n then 1 else 0
  }

  lemma LinesSnoc(report: seq<Line>, line: Line, n: int)
    ensures LinesFor(report + [line], n) == LinesFor(report, n) + if line.node == n then 1 else 0
  {
    assert (report + [line])[..|report|] == report;
  }

  /** The node has applied the plan without an error. */
  predicate AppliedCleanly(plan: Plan, s: NodeStatus) {
    s.applied == Some(plan.id) && s.error == ""
  }

  /** The plan is staged on the node and not applied yet. */
  predicate IsPending(plan: Plan, s: NodeStatus) {
    s.pending == Some(plan.id) && s.applied != Some(plan.id)
  }

  /** A named node failed to apply the plan, or has it neither applied nor staged; another node has one staged. */
  predicate IsError(plan: Plan, named: bool, s: NodeStatus) {
    if !named then s.pending.Some?
    else if s.applied == Some(plan.id) then s.error != ""
    else s.pending != Some(plan.id)
  }

  ghost predicate SomePending(plan: Plan, nodes: seq<NodeStatus>) {
    exists i :: 0 <= i < |nodes| && nodes[i].node in Named(plan) && IsPending(plan, nodes[i])
  }

  ghost predicate SomeBadStatus(plan: Plan, nodes: seq<NodeStatus>) {
    exists i :: 0 <= i < |nodes| && IsError(plan, nodes[i].node in Named(plan), nodes[i])
  }

  /** A plan that names nodes, and a bad status or a named node without one. */
  ghost predicate SomeError(plan: Plan, nodes: seq<NodeStatus>) {
    Named(plan) != {} && (SomeBadStatus(plan, nodes) || !(Named(plan) <= NodesOf(nodes)))
  }

  lemma SomeNext(plan: Plan, nodes: seq<NodeStatus>, i: nat)
    requires i < |nodes|
    ensures SomePending(plan, nodes[..i + 1]) <==>
            SomePending(plan, nodes[..i]) || (nodes[i].node in Named(plan) && IsPending(plan, nodes[i]))
    ensures SomeBadStatus(plan, nodes[..i + 1]) <==>
            SomeBadStatus(plan, nodes[..i]) || IsError(plan, nodes[i].node in Named(plan), nodes[i])
  {
    var now, next := nodes[..i], nodes[..i + 1];
    assert next[i] == nodes[i] && forall k :: 0 <= k < i ==> next[k] == now[k];
  }

  /** What a node's status must look like for the plan to be through. */
  predicate Good(plan: Plan, s: NodeStatus) {
    if s.node in Named(plan) then AppliedCleanly(plan, s) else s.pending.None?
  }

  predicate DistinctNodes(nodes: seq<NodeStatus>) {
    forall i, j :: 0 <= i < j < |nodes| ==> nodes[i].node != nodes[j].node
  }

  function NodesOf(nodes: seq<NodeStatus>): set<int> {
    set s | s in nodes :: s.node
  }

  /**
   * The plan is through: every node it names reports having applied it without an
   * error, and no other node has a plan staged.
   */
  ghost predicate Complete(plan: Plan, nodes: seq<NodeStatus>) {
    && (forall n :: n in Named(plan) ==>
          exists i :: 0 <= i < |nodes| && nodes[i].node == n && AppliedCleanly(plan, nodes[i]))
    && (forall i :: 0 <= i < |nodes| && nodes[i].node !in Named(plan) ==> nodes[i].pending.None?)
  }

  /** The line a status gives rise to; `named` is whether the plan still expects the node. */
  function LineFor(plan: Plan, named: bool, s: NodeStatus): Option<Line> {
    if named then
      if s.applied == Some(plan.id) && s.error != "" then Some(Line(ApplicationFailed, s.node))
      else if s.applied == Some(plan.id) then Some(Line(AppliedHere, s.node))
      else if s.pending == Some(plan.id) then Some(Line(PendingHere, s.node))
      else if s.pending.Some? then Some(Line(OtherPlanStaged, s.node))
      else Some(Line(NothingStaged, s.node))
    else if s.pending == Some(plan.id) then Some(Line(StagedUnplanned, s.node))
    else if s.pending.Some? then Some(Line(UnplannedOther, s.node))
    else None
  }

  /** Which line each case calls for. */
  lemma LinesAre(plan: Plan, named: bool, s: NodeStatus)
    ensures named && s.applied == Some(plan.id) ==>
              LineFor(plan, named, s) == Some(Line(if s.error == "" then AppliedHere else ApplicationFailed, s.node))
    ensures named && s.applied != Some(plan.id) && s.pending == Some(plan.id) ==>
              LineFor(plan, named, s) == Some(Line(PendingHere, s.node))
    ensures named && s.applied != Some(plan.id) && s.pending != Some(plan.id) ==>
              LineFor(plan, named, s) == Some(Line(if s.pending.Some? then OtherPlanStaged else NothingStaged, s.node))
    ensures !named && s.pending.None? ==> LineFor(plan, named, s) == None
    ensures !named && s.pending.Some? ==>
              LineFor(plan, named, s) ==
              Some(Line(if s.pending.value == plan.id then StagedUnplanned else UnplannedOther, s.node))
  {
  }

  method ReportStatus(d: ClusterDiff, plan: Plan, named: bool, s: NodeStatus)
    requires d.Valid()
    modifies d
    ensures d.Valid()
    ensures d.report == old(d.report) + (if LineFor(plan, named, s).Some? then [LineFor(plan, named, s).value] else [])
    ensures d.pending == old(d.pending) + if named && IsPending(plan, s) then 1 else 0
    ensures d.errors == old(d.errors) + if IsError(plan, named, s) then 1 else 0
    ensures d.pending == old(d.pending) && d.errors == old(d.errors) <==>
              if named then AppliedCleanly(plan, s) else s.pending.None?
  {
    var line := LineFor(plan, named, s);
    if line.None? {
      assert d.report + [] == d.report;
    } else if line.value.kind == AppliedHere {
      d.Append(line.value);
    } else if line.value.kind == PendingHere {
      d.AppendPending(line.value);
    } else {
      d.AppendError(line.value);
    }
  }

  /**
   * diffPlanWithNodeStatus. With a plan that names nodes and one status per node,
   * nothing is pending and there is no error exactly when the plan is through,
   * and each named node has exactly one line.
   */
  method DiffPlanWithNodeStatus(plan: Plan, nodes: seq<NodeStatus>) returns (d: ClusterDiff)
    ensures fresh(d) && d.Valid()
    ensures Named(plan) != {} && DistinctNodes(nodes) ==> (d.pending == 0 && d.errors == 0 <==> Complete(plan, nodes))
    ensures Named(plan) != {} && DistinctNodes(nodes) ==> forall n :: n in Named(plan) ==> LinesFor(d.report, n) == 1
    ensures Named(plan) == {} ==> d.pending == 0 && d.errors == 0
    ensures DistinctNodes(nodes) ==> (d.pending > 0 <==> SomePending(plan, nodes))
    ensures DistinctNodes(nodes) ==> (d.errors > 0 <==> SomeError(plan, nodes))
  {
    d := new ClusterDiff();
    var nodesWithPlan := Named(plan);
    if nodesWithPlan == {} {
      DumpStatuses(d, nodes);
      return;
    }
    ghost var distinct := DistinctNodes(nodes);
    var i := 0;
    while i < |nodes|
      invariant 0 <= i <= |nodes| && fresh(d) && d.Valid()
      invariant nodesWithPlan == Named(plan) - NodesOf(nodes[..i])
      invariant distinct ==> Tallied(plan, nodes[..i], d.report, d.pending, d.errors)
    {
      var s := nodes[i];
      if distinct {
        TallyNext(plan, nodes, i, d.report, d.pending, d.errors);
        NodesOfNext(nodes, i);
      }
      assert nodes[..i + 1] == nodes[..i] + [s];
      ReportStatus(d, plan, s.node in nodesWithPlan, s);
      nodesWithPlan := nodesWithPlan - {s.node};
      i := i + 1;
    }
    assert nodes[..i] == nodes;
    ReportMissing(d, nodesWithPlan);
    if distinct {
      TallyDone(plan, nodes, d.pending, d.errors - |nodesWithPlan|, nodesWithPlan);
    }
  }

  /** What the report and its counters say of the statuses seen so far. */
  ghost predicate Tallied(plan: Plan, nodes: seq<NodeStatus>, report: seq<Line>, pending: nat, errors: nat) {
    && (pending > 0 <==> SomePending(plan, nodes))
    && (errors > 0 <==> SomeBadStatus(plan, nodes))
    && OneLineEach(plan, nodes, report)
  }

  lemma TallyNext(plan: Plan, nodes: seq<NodeStatus>, i: nat, report: seq<Line>, pending: nat, errors: nat)
    requires i < |nodes| && DistinctNodes(nodes) && Tallied(plan, nodes[..i], report, pending, errors)
    ensures var s, named := nodes[i], nodes[i].node in Named(plan);
            var line := LineFor(plan, named, s);
            Tallied(plan, nodes[..i + 1], report + (if line.Some? then [line.value] else []),
                    pending + (if named && IsPending(plan, s) then 1 else 0),
                    errors + if IsError(plan, named, s) then 1 else 0)
  {
    SomeNext(plan, nodes, i);
    CountLines(plan, nodes, i, report);
  }

  lemma TallyDone(plan: Plan, nodes: seq<NodeStatus>, pending: nat, errors: nat, missing: set<int>)
    requires DistinctNodes(nodes) && Named(plan) != {} && missing == Named(plan) - NodesOf(nodes)
    requires (pending > 0 <==> SomePending(plan, nodes)) && (errors > 0 <==> SomeBadStatus(plan, nodes))
    ensures errors + |missing| > 0 <==> SomeError(plan, nodes)
    ensures pending == 0 && errors + |missing| == 0 <==> Complete(plan, nodes)
  {
    EmptyDifference(Named(plan), NodesOf(nodes));
    GoodIff(plan, nodes);
    CompleteIsGood(plan, nodes);
  }

  lemma EmptyDifference(a: set<int>, b: set<int>)
    ensures |a - b| == 0 <==> a <= b
  {
    if |a - b| == 0 {
      forall x | x in a
        ensures x in b
      {
        assert x !in a - b;
      }
    } else {
      HasMember(a - b);
    }
  }

  lemma GoodIff(plan: Plan, nodes: seq<NodeStatus>)
    ensures AllGood(plan, nodes) <==> !SomePending(plan, nodes) && !SomeBadStatus(plan, nodes)
  {
    forall k | 0 <= k < |nodes|
      ensures Good(plan, nodes[k]) <==>
              !(nodes[k].node in Named(plan) && IsPending(plan, nodes[k]))
              && !IsError(plan, nodes[k].node in Named(plan), nodes[k])
    {
    }
  }

  predicate AllGood(plan: Plan, nodes: seq<NodeStatus>) {
    forall k :: 0 <= k < |nodes| ==> Good(plan, nodes[k])
  }

  /** A named node has a line once its status was seen, and none before. */
  ghost predicate OneLineEach(plan: Plan, nodes: seq<NodeStatus>, report: seq<Line>) {
    forall n :: n in Named(plan) ==> LinesFor(report, n) == if n in NodesOf(nodes) then 1 else 0
  }

  lemma NodesOfNext(nodes: seq<NodeStatus>, i: nat)
    requires i < |nodes| && DistinctNodes(nodes)
    ensures NodesOf(nodes[..i + 1]) == NodesOf(nodes[..i]) + {nodes[i].node}
    ensures nodes[i].node !in NodesOf(nodes[..i])
  {
    assert nodes[..i + 1] == nodes[..i] + [nodes[i]];
  }

  lemma CountLines(plan: Plan, nodes: seq<NodeStatus>, i: nat, report: seq<Line>)
    requires i < |nodes| && DistinctNodes(nodes) && OneLineEach(plan, nodes[..i], report)
    ensures var line := LineFor(plan, nodes[i].node in Named(plan), nodes[i]);
            OneLineEach(plan, nodes[..i + 1], report + if line.Some? then [line.value] else [])
  {
    NodesOfNext(nodes, i);
    var line := LineFor(plan, nodes[i].node in Named(plan), nodes[i]);
    if line.Some? {
      forall n | n in Named(plan)
        ensures LinesFor(report + [line.value], n) == if n in NodesOf(nodes[..i + 1]) then 1 else 0
      {
        LinesSnoc(report, line.value, n);
      }
    } else {
      assert report + [] == report;
    }
  }

  lemma CompleteIsGood(plan: Plan, nodes: seq<NodeStatus>)
    requires DistinctNodes(nodes)
    ensures Complete(plan, nodes) <==> AllGood(plan, nodes) && Named(plan) <= NodesOf(nodes)
  {
    if Complete(plan, nodes) {
      forall k | 0 <= k < |nodes|
        ensures Good(plan, nodes[k])
      {
        if nodes[k].node in Named(plan) {
          var i :| 0 <= i < |nodes| && nodes[i].node == nodes[k].node && AppliedCleanly(plan, nodes[i]);
          assert i == k;
        }
      }
      forall n | n in Named(plan)
        ensures n in NodesOf(nodes)
      {
        var i :| 0 <= i < |nodes| && nodes[i].node == n && AppliedCleanly(plan, nodes[i]);
        assert nodes[i] in nodes;
      }
    }
    if AllGood(plan, nodes) && Named(plan) <= NodesOf(nodes) {
      forall n | n in Named(plan)
        ensures exists i :: 0 <= i < |nodes| && nodes[i].node == n && AppliedCleanly(plan, nodes[i])
      {
        assert n in NodesOf(nodes);
        var s :| s in nodes && s.node == n;
        var i :| 0 <= i < |nodes| && nodes[i] == s;
        assert Good(plan, nodes[i]);
      }
    }
  }

  lemma HasMember(s: set<int>)
    requires s != {}
    ensures exists m :: m in s
  {
    assert (forall m :: m !in s) ==> s == {};
  }

  /** Named nodes that sent no status. */
  method ReportMissing(d: ClusterDiff, missing: set<int>)
    requires d.Valid()
    modifies d
    ensures d.Valid() && d.pending == old(d.pending)
    ensures d.errors == old(d.errors) + |missing|
    ensures forall n :: LinesFor(d.report, n) == old(LinesFor(d.report, n)) + if n in missing then 1 else 0
  {
    var todo := missing;
    while todo != {}
      invariant d.Valid() && d.pending == old(d.pending) && todo <= missing
      invariant d.errors + |todo| == old(d.errors) + |missing|
      invariant forall n :: LinesFor(d.report, n) == old(LinesFor(d.report, n)) + if n in missing - todo then 1 else 0
      decreases todo
    {
      HasMember(todo);
      var m :| m in todo;
      ghost var before := d.report;
      d.AppendError(Line(NodeMissing, m));
      forall n
        ensures LinesFor(d.report, n) == LinesFor(before, n) + if n == m then 1 else 0
      {
        LinesSnoc(before, Line(NodeMissing, m), n);
      }
      todo := todo - {m};
    }
  }

  /** Without a plan the statuses are only listed. */
  method DumpStatuses(d: ClusterDiff, nodes: seq<NodeStatus>)
    requires d.Valid()
    modifies d
    ensures d.Valid() && d.pending == old(d.pending) && d.errors == old(d.errors)
  {
    var i := 0;
    while i < |nodes|
      invariant 0 <= i <= |nodes| && d.Valid() && d.pending == old(d.pending) && d.errors == old(d.errors)
    {
      if nodes[i].pending.Some? {
        d.Append(Line(Info, nodes[i].node));
      }
      if nodes[i].error != "" || nodes[i].applied.Some? {
        d.Append(Line(Info, nodes[i].node));
      }
      i := i + 1;
    }
  }

  datatype Verdict = RecoveryComplete | NotFinished | NotSucceeded | Unhealthy | NothingToSay

  /**
   * The end of runDebugVerify: the verdict, and the diff it rests on. With one
   * status per node, recovery is called complete only when it is.
   */
  method Verify(plan: Plan, nodes: seq<NodeStatus>, allDecommissioned: bool, rangesAvailable: bool)
    returns (v: Verdict, d: ClusterDiff)
    ensures v == NotFinished <==> plan.updates != [] && (!allDecommissioned || d.pending > 0)
    ensures v == NotSucceeded <==>
              plan.updates != [] && allDecommissioned && d.pending == 0 && (d.errors > 0 || !rangesAvailable)
    ensures v == Unhealthy <==> plan.updates == [] && (d.errors > 0 || !rangesAvailable)
    ensures v == NothingToSay <==> plan.updates == [] && d.errors == 0 && rangesAvailable
    ensures DistinctNodes(nodes) ==>
              && (d.pending > 0 <==> SomePending(plan, nodes))
              && (d.errors > 0 <==> SomeError(plan, nodes))
    ensures DistinctNodes(nodes) ==>
              (v == RecoveryComplete <==>
                 plan.updates != [] && allDecommissioned && rangesAvailable && Complete(plan, nodes))
  {
    d := DiffPlanWithNodeStatus(plan, nodes);
    if |plan.updates| > 0 {
      assert plan.updates[0] in Named(plan);
      if !allDecommissioned || d.pending > 0 {
        return NotFinished, d;
      }
      if d.errors > 0 || !rangesAvailable {
        return NotSucceeded, d;
      }
      return RecoveryComplete, d;
    }
    if d.errors > 0 || !rangesAvailable {
      return Unhealthy, d;
    }
    return NothingToSay, d;
  }
}
