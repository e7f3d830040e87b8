/**
 * The decommission driver against arbitrary server replies. What the server
 * answers, and every failure on the way, is an input; what the driver asks is
 * the output.
 */
module Decommission {
  import opened Common

  const SAME_STATUS_THRESHOLD := 15
  const REPLICAS_TO_REPORT := 5

  datatype Membership = Active | Decommissioning | Decommissioned

  /** `details` stands for the fields the driver only prints. */
  datatype NodeStatus = NodeStatus(node: int, membership: Membership, replicas: int, details: string)

  type Reply = seq<NodeStatus>

  datatype Readiness = Ready | AlreadyDecommissioned | AllocationErrors | Unknown

  datatype Checks = Skip | Enabled | Strict
  datatype Config = Config(waitForAll: bool, checks: Checks, dryRun: bool, nodes: seq<int>, local: int)

  /** One turn of the polling loop; no reply stands for a failed request. */
  datatype Round = Round(reply: Option<Reply>, printOk: bool, refreshOk: bool)

  datatype Env = Env(
    preCheck: Option<seq<Readiness>>,   // None: the pre-check request fails
    statusOk: bool,
    printOk: bool,
    rounds: seq<Round>,                 // as many as the retry loop allows
    drainFails: set<int>,
    finalOk: bool)

  datatype Request = PreCheck(strict: bool) | Status | Mark(report: nat) | Drain(node: int) | MarkDone

  function Sum(r: Reply): int {
    if r == [] then 0 else Sum(r[..|r| - 1]) + r[|r| - 1].replicas
  }

  predicate AnyActive(r: Reply) {
    exists i :: 0 <= i < |r| && r[i].membership == Active
  }

  /** The reply that lets the driver go on to draining. */
  predicate Finished(r: Reply) {
    !AnyActive(r) && WrapI64(Sum(r)) == 0
  }

  predicate ReplicasNonNegative(r: Reply) {
    forall i :: 0 <= i < |r| ==> r[i].replicas >= 0
  }

  lemma {:induction false} SumBounds(r: Reply)
    requires ReplicasNonNegative(r)
    ensures Sum(r) >= 0
    ensures Sum(r) == 0 <==> NoReplicas(r)
  {
    if r != [] {
      SumBounds(r[..|r| - 1]);
    }
  }

  predicate NoReplicas(r: Reply) {
    forall i :: 0 <= i < |r| ==> r[i].replicas == 0
  }

  /**
   * A finished reply means that no target is active or holds a replica, if and
   * only if some target is active or the counts do not add up to a positive
   * multiple of 2^64; in particular when they stay below 2^64 together.
   */
  lemma FinishedMeansEmpty(r: Reply)
    requires ReplicasNonNegative(r)
    ensures (Finished(r) <==> !AnyActive(r) && NoReplicas(r)) <==>
            AnyActive(r) || Sum(r) == 0 || Sum(r) % TWO64 != 0
    ensures Sum(r) < TWO64 ==> (Finished(r) <==> !AnyActive(r) && NoReplicas(r))
  {
    SumBounds(r);
    WrapsToZero(Sum(r));
  }

  lemma WrapsToZero(x: nat)
    ensures WrapI64(x) == 0 <==> x % TWO64 == 0
  {
    var q, r := x / TWO64, x % TWO64;
    assert x + TWO63 == q * TWO64 + (r + TWO63);
    if r < TWO63 {
      ModIs(x + TWO63, q, r + TWO63);
    } else {
      ModIs(x + TWO63, q + 1, r - TWO63);
    }
  }

  lemma ModIs(x: int, q: int, r: int)
    requires x == q * TWO64 + r && 0 <= r < TWO64
    ensures x % TWO64 == r
  {
  }

  /** The counter wraps: four full nodes can look empty. */
  lemma OverflowLooksEmpty()
    ensures var n := NodeStatus(1, Decommissioning, 0x4000_0000_0000_0000, "");
            var r := [n, n, n, n];
            ReplicasNonNegative(r) && Finished(r)
  {
    var n := NodeStatus(1, Decommissioning, 0x4000_0000_0000_0000, "");
    var r := [n, n, n, n];
    assert r[..3] == [n, n, n] && [n, n, n][..2] == [n, n] && [n, n][..1] == [n] && [n][..0] == [];
    assert Sum([n]) == 0x4000_0000_0000_0000;
    assert Sum([n, n]) == 2 * 0x4000_0000_0000_0000;
    assert Sum([n, n, n]) == 3 * 0x4000_0000_0000_0000;
  }

  method Tally(r: Reply) returns (anyActive: bool, replicaCount: int)
    ensures anyActive == AnyActive(r) && replicaCount == WrapI64(Sum(r))
    ensures anyActive <==> exists i :: 0 <= i < |r| && r[i].membership == Active
  {
    anyActive, replicaCount := false, 0;
    var i := 0;
    while i < |r|
      invariant 0 <= i <= |r|
      invariant anyActive <==> exists k :: 0 <= k < i && r[k].membership == Active
      invariant replicaCount == WrapI64(Sum(r[..i]))
    {
      anyActive := anyActive || r[i].membership == Active;
      replicaCount := WrapI64(replicaCount + r[i].replicas);
      assert r[..i + 1][..i] == r[..i];
      i := i + 1;
    }
    assert r[..i] == r;
  }

  predicate IsReady(x: Readiness) {
    x == Ready || x == AlreadyDecommissioned
  }

  /** decommissionPreCheckReady; no reply means the checks are off. */
  method PreCheckReady(reply: Option<seq<Readiness>>) returns (ready: bool)
    ensures ready <==> reply.None? || forall i :: 0 <= i < |reply.value| ==> IsReady(reply.value[i])
  {
    if reply.None? {
      return true;
    }
    var i := 0;
    while i < |reply.value|
      invariant 0 <= i <= |reply.value|
      invariant forall k :: 0 <= k < i ==> IsReady(reply.value[k])
    {
      if !(reply.value[i] == Ready || reply.value[i] == AlreadyDecommissioned) {
        return false;
      }
      i := i + 1;
    }
    return true;
  }

  /** The pre-check is off, or its reply shows every node ready. */
  predicate PassesPreCheck(cfg: Config, env: Env) {
    cfg.checks == Skip ||
    (env.preCheck.Some? && forall i :: 0 <= i < |env.preCheck.value| ==> IsReady(env.preCheck.value[i]))
  }

  /** Whether reply i equals the one before it; the first is compared with an empty reply. */
  predicate Same(rounds: seq<Round>, i: nat)
    requires i < |rounds|
  {
    rounds[i].reply == if i == 0 then Some([]) else rounds[i - 1].reply
  }

  /** How many replies in a row, up to and excluding k, equalled their predecessor. */
  function Streak(rounds: seq<Round>, k: nat): (s: nat)
    requires k <= |rounds|
    ensures s <= k
  {
    if k == 0 || !Same(rounds, k - 1) then 0 else 1 + Streak(rounds, k - 1)
  }

  /** The streak is the longest run of equal replies that ends just before k. */
  lemma {:induction false} StreakIsLongest(rounds: seq<Round>, k: nat)
    requires k <= |rounds|
    ensures forall i :: k - Streak(rounds, k) <= i < k ==> Same(rounds, i)
    ensures Streak(rounds, k) < k ==> !Same(rounds, k - Streak(rounds, k) - 1)
  {
    if k > 0 && Same(rounds, k - 1) {
      StreakIsLongest(rounds, k - 1);
    }
  }

  /** The number of replicas request k asks to have listed. */
  function ReportFor(rounds: seq<Round>, k: nat): nat
    requires k <= |rounds|
  {
    if Streak(rounds, k) >= 16 then REPLICAS_TO_REPORT else 0
  }

  /** Request k asks for 5 replicas if the 16 replies before it each equalled their predecessor, else for none. */
  lemma ReportIs(rounds: seq<Round>, k: nat)
    requires k <= |rounds|
    ensures ReportFor(rounds, k) == 5 <==> k >= 16 && forall i :: k - 16 <= i < k ==> Same(rounds, i)
    ensures ReportFor(rounds, k) == 5 || ReportFor(rounds, k) == 0
  {
    StreakIsLongest(rounds, k);
  }

  /** The replica numbers of the DECOMMISSIONING requests, in order. */
  function Marks(reqs: seq<Request>): seq<nat> {
    if reqs == [] then []
    else
      var n := |reqs| - 1;
      Marks(reqs[..n]) + if reqs[n].Mark? then [reqs[n].report] else []
  }

  lemma MarksSnoc(reqs: seq<Request>, q: Request)
    ensures Marks(reqs + [q]) == Marks(reqs) + if q.Mark? then [q.report] else []
  {
    assert (reqs + [q])[..|reqs|] == reqs;
  }

  /** Only pre-checks, status and DECOMMISSIONING requests. */
  predicate Polling(reqs: seq<Request>) {
    forall i :: 0 <= i < |reqs| ==> !reqs[i].Drain? && !reqs[i].MarkDone?
  }

  /** The requests after a finished reply: drains up to the first that fails, or all and then DECOMMISSIONED. */
  function FinalRequests(nodes: seq<int>, local: int, fails: set<int>): seq<Request> {
    if nodes == [] then [MarkDone]
    else if nodes[0] == local then FinalRequests(nodes[1..], local, fails)
    else if nodes[0] in fails then [Drain(nodes[0])]
    else [Drain(nodes[0])] + FinalRequests(nodes[1..], local, fails)
  }

  predicate DrainsWork(nodes: seq<int>, local: int, fails: set<int>) {
    forall i :: 0 <= i < |nodes| ==> nodes[i] == local || nodes[i] !in fails
  }

  /**
   * DECOMMISSIONED comes once and last, exactly when no drain failed, after a
   * drain of every target other than the node serving the requests.
   */
  lemma {:induction false} MarkDoneIsLast(nodes: seq<int>, local: int, fails: set<int>)
    ensures var q := FinalRequests(nodes, local, fails);
            && q != []
            && (forall i :: 0 <= i < |q| - 1 ==> q[i].Drain? && q[i].node != local && q[i].node !in fails)
            && (q[|q| - 1].MarkDone? <==> DrainsWork(nodes, local, fails))
            && (q[|q| - 1].MarkDone? ==> forall n :: n in nodes && n != local ==> Drain(n) in q)
            && (!q[|q| - 1].MarkDone? ==> q[|q| - 1].Drain? && q[|q| - 1].node in fails)
  {
    if nodes != [] {
      MarkDoneIsLast(nodes[1..], local, fails);
      var q, later := FinalRequests(nodes, local, fails), FinalRequests(nodes[1..], local, fails);
      assert nodes[0] == local || nodes[0] !in fails ==>
          (DrainsWork(nodes, local, fails) <==> DrainsWork(nodes[1..], local, fails)) by {
        assert forall i :: 0 <= i < |nodes| - 1 ==> nodes[1..][i] == nodes[i + 1];
        assert forall i :: 1 <= i < |nodes| ==> nodes[i] == nodes[1..][i - 1];
      }
      if nodes[0] != local && nodes[0] !in fails {
        assert q[|q| - 1] == later[|later| - 1];
        assert forall i :: 1 <= i < |q| ==> q[i] == later[i - 1];
      }
    }
  }

  /** The targets other than the serving node, in order. */
  function Targets(nodes: seq<int>, local: int): seq<int> {
    if nodes == [] then []
    else (if nodes[0] == local then [] else [nodes[0]]) + Targets(nodes[1..], local)
  }

  /** Each target is among them as often as it is given, the serving node never. */
  lemma {:induction false} TargetsAre(nodes: seq<int>, local: int, n: int)
    ensures multiset(Targets(nodes, local))[n] == if n == local then 0 else multiset(nodes)[n]
  {
    if nodes != [] {
      TargetsAre(nodes[1..], local, n);
      assert nodes == [nodes[0]] + nodes[1..];
    }
  }

  lemma Regroup<T>(a: seq<T>, b: seq<T>, c: seq<T>)
    ensures (a + b) + c == a + (b + c)
  {
  }

  /** The targets keep their order. */
  lemma {:induction false} TargetsInOrder(a: seq<int>, b: seq<int>, local: int)
    ensures Targets(a + b, local) == Targets(a, local) + Targets(b, local)
  {
    if a == [] {
      assert a + b == b;
    } else {
      TargetsInOrder(a[1..], b, local);
      assert (a + b)[0] == a[0] && (a + b)[1..] == a[1..] + b;
      Regroup(if a[0] == local then [] else [a[0]], Targets(a[1..], local), Targets(b, local));
    }
  }

  function DrainsOf(nodes: seq<int>): seq<Request> {
    seq(|nodes|, i requires 0 <= i < |nodes| => Drain(nodes[i]))
  }

  lemma DrainsOfCons(n: int, later: seq<int>)
    ensures DrainsOf([n] + later) == [Drain(n)] + DrainsOf(later)
  {
  }

  /** The requests up to target k of those given, which is the first that fails to drain. */
  ghost predicate StopsAt(q: seq<Request>, targets: seq<int>, fails: set<int>, k: nat) {
    && k < |targets| && targets[k] in fails && (forall j :: 0 <= j < k ==> targets[j] !in fails)
    && q == DrainsOf(targets[..k + 1])
  }

  /**
   * The final requests drain the targets other than the serving node, each in its
   * place and nobody else, and then mark all as decommissioned; or they stop at
   * the first that fails to drain.
   */
  lemma {:induction false} FinalRequestsAre(nodes: seq<int>, local: int, fails: set<int>)
    ensures var q, ts := FinalRequests(nodes, local, fails), Targets(nodes, local);
            || ((forall i :: 0 <= i < |ts| ==> ts[i] !in fails) && q == DrainsOf(ts) + [MarkDone])
            || exists k: nat :: StopsAt(q, ts, fails, k)
  {
    if nodes != [] {
      var later, n := nodes[1..], nodes[0];
      FinalRequestsAre(later, local, fails);
      var q, ts := FinalRequests(later, local, fails), Targets(later, local);
      if n != local {
        DrainsOfCons(n, ts);
        if n in fails {
          assert ([n] + ts)[..1] == [n] && DrainsOf([n]) == [Drain(n)];
          assert StopsAt([Drain(n)], [n] + ts, fails, 0);
        } else if k: nat :| StopsAt(q, ts, fails, k) {
          DrainsOfCons(n, ts[..k + 1]);
          assert ([n] + ts)[..k + 2] == [n] + ts[..k + 1];
          assert StopsAt([Drain(n)] + q, [n] + ts, fails, k + 1);
        }
      } else {
        assert [] + ts == ts;
      }
    }
  }

  /** Over a whole run, DECOMMISSIONED is asked for at most once, as the last request. */
  lemma DecommissionedAtMostOnce(poll: seq<Request>, nodes: seq<int>, local: int, fails: set<int>)
    requires Polling(poll)
    ensures var all := poll + FinalRequests(nodes, local, fails);
            forall i :: 0 <= i < |all| - 1 ==> !all[i].MarkDone?
  {
    MarkDoneIsLast(nodes, local, fails);
  }

  /** Draining the targets and marking them decommissioned. */
  method FinishNodes(cfg: Config, env: Env) returns (reqs: seq<Request>, ok: bool)
    ensures reqs == FinalRequests(cfg.nodes, cfg.local, env.drainFails)
    ensures ok <==> DrainsWork(cfg.nodes, cfg.local, env.drainFails) && env.finalOk
  {
    reqs := [];
    var i := 0;
    while i < |cfg.nodes|
      invariant 0 <= i <= |cfg.nodes|
      invariant reqs + FinalRequests(cfg.nodes[i..], cfg.local, env.drainFails)
             == FinalRequests(cfg.nodes, cfg.local, env.drainFails)
      invariant forall k :: 0 <= k < i ==> cfg.nodes[k] == cfg.local || cfg.nodes[k] !in env.drainFails
    {
      var n := cfg.nodes[i];
      assert cfg.nodes[i..][1..] == cfg.nodes[i + 1..];
      if n != cfg.local {
        reqs := reqs + [Drain(n)];
        if n in env.drainFails {
          return reqs, false;
        }
      }
      i := i + 1;
    }
    reqs := reqs + [MarkDone];
    ok := env.finalOk;
  }

  /** sameStatusCount after a streak: the turn that raises the report does not count. */
  function SameCount(streak: nat): nat {
    if streak <= SAME_STATUS_THRESHOLD then streak else streak - 1
  }

  datatype PollEnd = GoDrain | StopEarly | GiveUp

  /** The DECOMMISSIONING requests so far: request k asks for what the replies before it call for. */
  ghost predicate Reported(reqs: seq<Request>, rounds: seq<Round>, k: nat) {
    && k <= |rounds| && Polling(reqs) && |Marks(reqs)| == k
    && forall j :: 0 <= j < k ==> Marks(reqs)[j] == ReportFor(rounds, j)
  }

  lemma ReportOne(reqs: seq<Request>, rounds: seq<Round>, k: nat)
    requires Reported(reqs, rounds, k) && k < |rounds|
    ensures Reported(reqs + [Mark(ReportFor(rounds, k))], rounds, k + 1)
  {
    MarksSnoc(reqs, Mark(ReportFor(rounds, k)));
  }

  lemma ReportNothing(reqs: seq<Request>, rounds: seq<Round>, k: nat, strict: bool)
    requires Reported(reqs, rounds, k)
    ensures Reported(reqs + [PreCheck(strict)], rounds, k)
  {
    MarksSnoc(reqs, PreCheck(strict));
  }

  predicate FinishedAt(rounds: seq<Round>, k: nat) {
    k < |rounds| && rounds[k].reply.Some? && Finished(rounds[k].reply.value)
  }

  /** The 16th reply in a row that equals its predecessor has the pre-check repeated. */
  predicate Refreshes(cfg: Config, rounds: seq<Round>, k: nat)
    requires k < |rounds|
  {
    cfg.checks != Skip && Same(rounds, k) && Streak(rounds, k) == SAME_STATUS_THRESHOLD
  }

  /** The pre-check is repeated exactly at the 16th reply in a row that equals its predecessor, when checks are on. */
  lemma RefreshesIs(cfg: Config, rounds: seq<Round>, k: nat)
    requires k < |rounds|
    ensures Refreshes(cfg, rounds, k) <==>
            && cfg.checks != Skip && k >= 15 && (forall i :: k - 15 <= i <= k ==> Same(rounds, i))
            && (k >= 16 ==> !Same(rounds, k - 16))
  {
    StreakIsLongest(rounds, k);
  }

  /** Nothing fails in round k, which prints a new reply and refreshes on one that stayed the same for long. */
  predicate RoundOk(cfg: Config, rounds: seq<Round>, k: nat)
    requires k < |rounds|
  {
    && rounds[k].reply.Some?
    && (Same(rounds, k) || rounds[k].printOk)
    && (Refreshes(cfg, rounds, k) ==> rounds[k].refreshOk)
  }

  /** The loop gets to round k: the rounds before it neither failed nor had a finished reply. */
  ghost predicate Reached(cfg: Config, rounds: seq<Round>, k: nat) {
    && k <= |rounds| && (k > 0 ==> cfg.waitForAll)
    && forall j :: 0 <= j < k ==> RoundOk(cfg, rounds, j) && !FinishedAt(rounds, j)
  }

  /** Some round that is reached has a finished reply and does not fail. */
  ghost predicate Drainable(cfg: Config, rounds: seq<Round>) {
    exists k :: Reached(cfg, rounds, k) && FinishedAt(rounds, k) && RoundOk(cfg, rounds, k)
  }

  /** A round that fails, the only round without a finished reply, or no round left, keeps from draining. */
  lemma NotDrainable(cfg: Config, rounds: seq<Round>, k: nat)
    requires Reached(cfg, rounds, k)
    requires k < |rounds| ==> !RoundOk(cfg, rounds, k) || (!cfg.waitForAll && !FinishedAt(rounds, k))
    ensures !Drainable(cfg, rounds)
  {
    forall n: nat
      ensures Reached(cfg, rounds, n) && FinishedAt(rounds, n) ==> n == k
    {
    }
  }

  /** Pre-checks are only made when they are on, and strict when asked to be. */
  ghost predicate ProperChecks(cfg: Config, reqs: seq<Request>) {
    forall i :: 0 <= i < |reqs| && reqs[i].PreCheck? ==>
      cfg.checks != Skip && (reqs[i].strict <==> cfg.checks == Strict)
  }

  lemma ProperSnoc(cfg: Config, reqs: seq<Request>, q: Request)
    requires ProperChecks(cfg, reqs)
    requires q.PreCheck? ==> cfg.checks != Skip && (q.strict <==> cfg.checks == Strict)
    ensures ProperChecks(cfg, reqs + [q])
  {
  }

  /** Comparing reply k with the one before it, and what follows from that. */
  method Compare(cfg: Config, rounds: seq<Round>, k: nat, prev: Reply, sameStatusCount: nat, numReplicaReport: nat)
    returns (ok: bool, refresh: bool, sameStatusCount': nat, numReplicaReport': nat)
    requires k < |rounds| && rounds[k].reply.Some?
    requires Some(prev) == if k == 0 then Some([]) else rounds[k - 1].reply
    requires sameStatusCount == SameCount(Streak(rounds, k)) && numReplicaReport == ReportFor(rounds, k)
    ensures ok <==> RoundOk(cfg, rounds, k)
    ensures refresh <==> Refreshes(cfg, rounds, k)
    ensures sameStatusCount' == SameCount(Streak(rounds, k + 1)) && numReplicaReport' == ReportFor(rounds, k + 1)
    ensures !ok <==> (prev != rounds[k].reply.value && !rounds[k].printOk) || (refresh && !rounds[k].refreshOk)
  {
    if prev != rounds[k].reply.value {
      return rounds[k].printOk, false, 0, 0;
    }
    if sameStatusCount >= SAME_STATUS_THRESHOLD && numReplicaReport == 0 {
      refresh := cfg.checks != Skip;
      return !refresh || rounds[k].refreshOk, refresh, sameStatusCount, REPLICAS_TO_REPORT;
    }
    return true, false, sameStatusCount + 1, numReplicaReport;
  }

  /** The polling loop: it leaves for draining exactly when it gets to a finished reply without a failure. */
  method Poll(cfg: Config, env: Env, before: seq<Request>) returns (reqs: seq<Request>, end: PollEnd)
    requires Polling(before) && Marks(before) == [] && ProperChecks(cfg, before)
    ensures ProperChecks(cfg, reqs)
    ensures Reported(reqs, env.rounds, |Marks(reqs)|)
    ensures forall k :: 0 <= k < |Marks(reqs)| - 1 ==> !FinishedAt(env.rounds, k)
    ensures end == GoDrain ==> Marks(reqs) != [] && FinishedAt(env.rounds, |Marks(reqs)| - 1)
    ensures end == StopEarly ==> !cfg.waitForAll && |Marks(reqs)| == 1 && !FinishedAt(env.rounds, 0)
    ensures end == GoDrain <==> Drainable(cfg, env.rounds)
    ensures !cfg.waitForAll ==> |Marks(reqs)| <= 1
  {
    reqs := before;
    var numReplicaReport, sameStatusCount := 0, 0;
    var prev: Reply := [];
    var k := 0;
    while k < |env.rounds|
      invariant 0 <= k <= |env.rounds| && Reported(reqs, env.rounds, k) && Reached(cfg, env.rounds, k)
      invariant ProperChecks(cfg, reqs)
      invariant Some(prev) == if k == 0 then Some([]) else env.rounds[k - 1].reply
      invariant numReplicaReport == ReportFor(env.rounds, k)
      invariant sameStatusCount == SameCount(Streak(env.rounds, k))
    {
      ReportOne(reqs, env.rounds, k);
      ProperSnoc(cfg, reqs, Mark(numReplicaReport));
      reqs := reqs + [Mark(numReplicaReport)];
      if env.rounds[k].reply.None? {
        NotDrainable(cfg, env.rounds, k);
        return reqs, GiveUp;
      }
      var resp := env.rounds[k].reply.value;
      var ok, refresh;
      ok, refresh, sameStatusCount, numReplicaReport :=
        Compare(cfg, env.rounds, k, prev, sameStatusCount, numReplicaReport);
      prev := resp;
      if refresh {
        ReportNothing(reqs, env.rounds, k + 1, cfg.checks == Strict);
        ProperSnoc(cfg, reqs, PreCheck(cfg.checks == Strict));
        reqs := reqs + [PreCheck(cfg.checks == Strict)];
      }
      if !ok {
        NotDrainable(cfg, env.rounds, k);
        return reqs, GiveUp;
      }
      var anyActive, replicaCount := Tally(resp);
      if !anyActive && replicaCount == 0 {
        assert FinishedAt(env.rounds, k) && RoundOk(cfg, env.rounds, k);
        return reqs, GoDrain;
      }
      if !cfg.waitForAll {
        NotDrainable(cfg, env.rounds, k);
        return reqs, StopEarly;
      }
      k := k + 1;
    }
    NotDrainable(cfg, env.rounds, k);
    end := GiveUp;
  }

  /**
   * runDecommissionNodeImpl. `poll` holds the requests up to the last poll and
   * `final` those after it. A dry run or a failed pre-check asks for nothing but
   * checks; otherwise draining starts only after a finished reply.
   */
  method Run(cfg: Config, env: Env) returns (poll: seq<Request>, final: seq<Request>, ok: bool)
    ensures Reported(poll, env.rounds, |Marks(poll)|) && ProperChecks(cfg, poll)
    ensures cfg.dryRun || !PassesPreCheck(cfg, env) ==> poll == CheckRequests(cfg, env) && Marks(poll) == []
    ensures final == [] || final == FinalRequests(cfg.nodes, cfg.local, env.drainFails)
    ensures final != [] ==> Marks(poll) != [] && FinishedAt(env.rounds, |Marks(poll)| - 1)
    ensures forall k :: 0 <= k < |Marks(poll)| - 1 ==> !FinishedAt(env.rounds, k)
    ensures !cfg.waitForAll ==> |Marks(poll)| <= 1
    ensures final != [] <==> !cfg.dryRun && PassesPreCheck(cfg, env) && Drainable(cfg, env.rounds)
    ensures final != [] ==> (ok <==> DrainsWork(cfg.nodes, cfg.local, env.drainFails) && env.finalOk)
    ensures ok && !cfg.dryRun ==>
              (if final != [] then DrainsWork(cfg.nodes, cfg.local, env.drainFails) && env.finalOk
               else !cfg.waitForAll && |Marks(poll)| == 1)
    ensures ok ==> PassesPreCheck(cfg, env)
  {
    var proceed;
    poll, proceed, ok := RunChecks(cfg, env);
    ChecksOnly(cfg, env);
    final := [];
    if !proceed {
      return;
    }
    var end;
    poll, end := Poll(cfg, env, poll);
    if end == GoDrain {
      final, ok := FinishNodes(cfg, env);
      MarkDoneIsLast(cfg.nodes, cfg.local, env.drainFails);
    } else {
      ok := end == StopEarly;
    }
  }

  /** A pre-check unless it is off, and a status request on a dry run or when the pre-check's reply is bad. */
  function CheckRequests(cfg: Config, env: Env): seq<Request> {
    (if cfg.checks == Skip then [] else [PreCheck(cfg.checks == Strict)]) +
    if (cfg.checks == Skip || env.preCheck.Some?) && (cfg.dryRun || !PassesPreCheck(cfg, env)) then [Status] else []
  }

  /** Which checks are asked for: no pre-check when it is off, a strict one when asked for, then the status. */
  lemma ChecksAre(cfg: Config, env: Env)
    ensures var reqs := CheckRequests(cfg, env);
            var status := if cfg.dryRun || !PassesPreCheck(cfg, env) then [Status] else [];
            && (cfg.checks == Skip ==> reqs == if cfg.dryRun then [Status] else [])
            && (cfg.checks == Enabled ==> reqs == [PreCheck(false)] + if env.preCheck.None? then [] else status)
            && (cfg.checks == Strict ==> reqs == [PreCheck(true)] + if env.preCheck.None? then [] else status)
  {
  }

  lemma ChecksOnly(cfg: Config, env: Env)
    ensures ProperChecks(cfg, CheckRequests(cfg, env)) && Polling(CheckRequests(cfg, env))
    ensures Marks(CheckRequests(cfg, env)) == []
  {
    NoMarks(CheckRequests(cfg, env));
  }

  lemma {:induction false} NoMarks(reqs: seq<Request>)
    requires forall i :: 0 <= i < |reqs| ==> !reqs[i].Mark?
    ensures Marks(reqs) == []
  {
    if reqs != [] {
      NoMarks(reqs[..|reqs| - 1]);
    }
  }

  /** The pre-check, and the status request that ends a dry run or a failed pre-check. */
  method RunChecks(cfg: Config, env: Env) returns (reqs: seq<Request>, proceed: bool, ok: bool)
    ensures reqs == CheckRequests(cfg, env)
    ensures proceed <==> !cfg.dryRun && PassesPreCheck(cfg, env)
    ensures !proceed ==> (ok <==> PassesPreCheck(cfg, env) && env.statusOk && env.printOk)
  {
    reqs := [];
    var preCheck: Option<seq<Readiness>> := None;
    if cfg.checks != Skip {
      reqs := reqs + [PreCheck(cfg.checks == Strict)];
      if env.preCheck.None? {
        return reqs, false, false;
      }
      preCheck := env.preCheck;
    }
    var ready := PreCheckReady(preCheck);
    if cfg.dryRun || !ready {
      reqs := reqs + [Status];
      return reqs, false, env.statusOk && env.printOk && ready;
    }
    return reqs, true, true;
  }
}
