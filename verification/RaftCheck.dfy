/**
 * The consistency check of a store's Raft state: one scan over the keys local to
 * range IDs gathers a record per range, and a second pass judges each record.
 * Indices are 64-bit unsigned and wrap around.
 */
module RaftCheck {
  import opened Common

  type Index = U64
  type RangeID = int

  datatype KV =
    | HardState(range: RangeID, commit: Index)
    | TruncatedState(range: RangeID, index: Index)
    | AppliedState(range: RangeID, index: Index)
    | LogEntry(range: RangeID, index: Index)
    | Unrelated(range: RangeID)
    | Undecodable

  datatype Info = Info(first: Index, last: Index, applied: Index, committed: Index, truncated: Index)

  const EMPTY := Info(0, 0, 0, 0, 0)

  datatype Verdict = Sound | FoundProblem | DecodeError

  function Succ(i: Index): Index {
    (i + 1) % TWO64
  }

  function Pred(i: Index): Index {
    (i + TWO64 - 1) % TWO64
  }

  /** The log indices of a range, in key order. */
  function Logs(kvs: seq<KV>, r: RangeID): seq<Index> {
    if kvs == [] then []
    else
      var n := |kvs| - 1;
      Logs(kvs[..n], r) + if kvs[n].LogEntry? && kvs[n].range == r then [kvs[n].index] else []
  }

  function Committed(kvs: seq<KV>, r: RangeID): Index {
    if kvs == [] then 0
    else
      var n := |kvs| - 1;
      if kvs[n].HardState? && kvs[n].range == r then kvs[n].commit else Committed(kvs[..n], r)
  }

  function Truncated(kvs: seq<KV>, r: RangeID): Index {
    if kvs == [] then 0
    else
      var n := |kvs| - 1;
      if kvs[n].TruncatedState? && kvs[n].range == r then kvs[n].index else Truncated(kvs[..n], r)
  }

  function Applied(kvs: seq<KV>, r: RangeID): Index {
    if kvs == [] then 0
    else
      var n := |kvs| - 1;
      if kvs[n].AppliedState? && kvs[n].range == r then kvs[n].index else Applied(kvs[..n], r)
  }

  predicate Relevant(kv: KV) {
    kv.HardState? || kv.TruncatedState? || kv.AppliedState? || kv.LogEntry?
  }

  /** The ranges the scan makes a record for. */
  function Ranges(kvs: seq<KV>): set<RangeID> {
    set i | 0 <= i < |kvs| && Relevant(kvs[i]) :: kvs[i].range
  }

  /** Index 0 stands for "no entry yet": zeros before the first positive index do not count. */
  function DropZeros(l: seq<Index>): seq<Index> {
    if l != [] && l[0] == 0 then DropZeros(l[1..]) else l
  }

  lemma {:induction false} DropZerosSnoc(l: seq<Index>, x: Index)
    ensures DropZeros(l + [x]) == if DropZeros(l) == [] && x == 0 then [] else DropZeros(l) + [x]
  {
    if l == [] {
      assert l + [x] == [x] && [x][1..] == [];
    } else if l[0] == 0 {
      assert (l + [x])[1..] == l[1..] + [x];
      DropZerosSnoc(l[1..], x);
    }
  }

  lemma {:induction false} DropZerosStartsPositive(l: seq<Index>)
    ensures DropZeros(l) != [] ==> DropZeros(l)[0] > 0
  {
    if l != [] && l[0] == 0 {
      DropZerosStartsPositive(l[1..]);
    }
  }

  /** The indices count up by one from the first, around 2^64. */
  predicate Consecutive(l: seq<Index>) {
    forall i :: 0 <= i < |l| ==> l[i] == (l[0] + i) % TWO64
  }

  function First(l: seq<Index>): Index {
    if l == [] then 0 else l[0]
  }

  function Last(l: seq<Index>): Index {
    if l == [] then 0 else l[|l| - 1]
  }

  /** What a healthy range looks like, from its log indices and its three single-valued keys alone. */
  predicate Healthy(logs: seq<Index>, committed: Index, truncated: Index, applied: Index) {
    var l := DropZeros(logs);
    && Consecutive(l)
    && (truncated == 0 || (truncated + 1) % TWO64 == First(l))
    && First(l) <= applied <= Last(l)
    && applied <= committed <= Last(l)
  }

  predicate HealthyRange(kvs: seq<KV>, r: RangeID) {
    Healthy(Logs(kvs, r), Committed(kvs, r), Truncated(kvs, r), Applied(kvs, r))
  }

  ghost predicate AllHealthy(kvs: seq<KV>) {
    forall r :: r in Ranges(kvs) ==> HealthyRange(kvs, r)
  }

  /** The record the scan should hold for a range. */
  function Summary(kvs: seq<KV>, r: RangeID): Info {
    var l := DropZeros(Logs(kvs, r));
    Info(First(l), Last(l), Applied(kvs, r), Committed(kvs, r), Truncated(kvs, r))
  }

  /** Some log entry of the range did not follow its predecessor. */
  predicate Gap(kvs: seq<KV>, r: RangeID) {
    !Consecutive(DropZeros(Logs(kvs, r)))
  }

  ghost predicate AnyGap(kvs: seq<KV>) {
    exists r :: Gap(kvs, r)
  }

  ghost predicate Gathered(infos: map<RangeID, Info>, kvs: seq<KV>) {
    && infos.Keys == Ranges(kvs)
    && forall r :: r in infos ==> infos[r] == Summary(kvs, r)
  }

  lemma UnseenIsEmpty(kvs: seq<KV>, r: RangeID)
    requires r !in Ranges(kvs)
    ensures Logs(kvs, r) == [] && Summary(kvs, r) == EMPTY
  {
    if kvs != [] {
      var n := |kvs| - 1;
      assert Relevant(kvs[n]) ==> kvs[n].range in Ranges(kvs);
      assert r !in Ranges(kvs[..n]) by {
        assert forall i :: 0 <= i < n && Relevant(kvs[..n][i]) ==> kvs[i].range in Ranges(kvs);
      }
      UnseenIsEmpty(kvs[..n], r);
    }
  }

  lemma RangesSnoc(kvs: seq<KV>, kv: KV)
    ensures Ranges(kvs + [kv]) == Ranges(kvs) + if Relevant(kv) then {kv.range} else {}
  {
    var all := kvs + [kv];
    forall r | r in Ranges(kvs) + (if Relevant(kv) then {kv.range} else {})
      ensures r in Ranges(all)
    {
      if r in Ranges(kvs) {
        var i :| 0 <= i < |kvs| && Relevant(kvs[i]) && kvs[i].range == r;
        assert all[i] == kvs[i];
      } else {
        assert all[|kvs|] == kv;
      }
    }
    forall r | r in Ranges(all)
      ensures r in Ranges(kvs) + if Relevant(kv) then {kv.range} else {}
    {
      var i :| 0 <= i < |all| && Relevant(all[i]) && all[i].range == r;
      assert i < |kvs| ==> all[i] == kvs[i];
    }
  }

  /** What one key does to the record of its range. */
  function Update(info: Info, kv: KV): Info
    requires Relevant(kv)
  {
    match kv
    case HardState(_, c) => info.(committed := c)
    case TruncatedState(_, i) => info.(truncated := i)
    case AppliedState(_, i) => info.(applied := i)
    case LogEntry(_, i) => if info.first == 0 then info.(first := i, last := i) else info.(last := i)
  }

  lemma LogsSnoc(kvs: seq<KV>, kv: KV, r: RangeID)
    ensures Logs(kvs + [kv], r) == if kv.LogEntry? && kv.range == r then Logs(kvs, r) + [kv.index] else Logs(kvs, r)
  {
    assert (kvs + [kv])[..|kvs|] == kvs;
  }

  lemma CountsUp(a: nat, b: Index)
    requires b == a % TWO64
    ensures Succ(b) == (a + 1) % TWO64
  {
  }

  lemma PredOfNext(i: Index, first: Index)
    ensures i == Pred(first) <==> (i + 1) % TWO64 == first
  {
  }

  lemma ConsecutiveSnoc(l: seq<Index>, x: Index)
    ensures Consecutive(l + [x]) <==> Consecutive(l) && (l == [] || x == Succ(Last(l)))
  {
    var m, n := l + [x], |l|;
    if l == [] {
      assert m == [x];
    } else {
      assert forall i :: 0 <= i < n ==> m[i] == l[i];
      if Consecutive(m) {
        assert forall i :: 0 <= i < n ==> l[i] == m[i] == (m[0] + i) % TWO64;
        assert m[n] == (m[0] + n) % TWO64;
      }
      if Consecutive(l) {
        CountsUp(l[0] + (n - 1), l[n - 1]);
        assert m[n] == x && m[0] == l[0];
      }
    }
  }

  /** The test the scan makes on a log entry. */
  predicate OutOfOrder(info: Info, kv: KV) {
    kv.LogEntry? && info.first != 0 && kv.index != Succ(info.last)
  }

  /** One more key changes only its own range's record, and opens a gap only there. */
  lemma SummarySnoc(kvs: seq<KV>, kv: KV, r: RangeID)
    ensures Summary(kvs + [kv], r)
         == if Relevant(kv) && kv.range == r then Update(Summary(kvs, r), kv) else Summary(kvs, r)
    ensures Gap(kvs + [kv], r) <==> (Gap(kvs, r) || (OutOfOrder(Summary(kvs, r), kv) && kv.range == r))
  {
    assert (kvs + [kv])[..|kvs|] == kvs && (kvs + [kv])[|kvs|] == kv;
    LogsSnoc(kvs, kv, r);
    if kv.LogEntry? && kv.range == r {
      DropZerosSnoc(Logs(kvs, r), kv.index);
      DropZerosStartsPositive(Logs(kvs, r));
      ConsecutiveSnoc(DropZeros(Logs(kvs, r)), kv.index);
    }
  }

  lemma ScanStep(kvs: seq<KV>, kv: KV, infos: map<RangeID, Info>, info: Info)
    requires Relevant(kv) && Gathered(infos, kvs)
    requires info == if kv.range in infos then infos[kv.range] else EMPTY
    ensures info == Summary(kvs, kv.range)
    ensures Gathered(infos[kv.range := Update(info, kv)], kvs + [kv])
  {
    RangesSnoc(kvs, kv);
    if kv.range !in infos {
      UnseenIsEmpty(kvs, kv.range);
    }
    var infos' := infos[kv.range := Update(info, kv)];
    forall r | r in infos'
      ensures infos'[r] == Summary(kvs + [kv], r)
    {
      SummarySnoc(kvs, kv, r);
    }
  }

  lemma GapStep(kvs: seq<KV>, kv: KV)
    requires !kv.Undecodable?
    ensures AnyGap(kvs + [kv]) <==> (AnyGap(kvs) || OutOfOrder(Summary(kvs, kv.range), kv))
  {
    forall r
      ensures Gap(kvs + [kv], r) <==> (Gap(kvs, r) || (OutOfOrder(Summary(kvs, r), kv) && kv.range == r))
    {
      SummarySnoc(kvs, kv, r);
    }
    assert OutOfOrder(Summary(kvs, kv.range), kv) ==> Gap(kvs + [kv], kv.range);
  }

  lemma ScanSkip(kvs: seq<KV>, kv: KV, infos: map<RangeID, Info>)
    requires !Relevant(kv) && Gathered(infos, kvs)
    ensures Gathered(infos, kvs + [kv])
  {
    RangesSnoc(kvs, kv);
    forall r | r in infos
      ensures infos[r] == Summary(kvs + [kv], r)
    {
      SummarySnoc(kvs, kv, r);
    }
  }

  /** One key of the scan, after the keys in `done`. */
  method ScanKey(ghost done: seq<KV>, kv: KV, infos: map<RangeID, Info>, found: bool)
    returns (infos': map<RangeID, Info>, found': bool)
    requires !kv.Undecodable? && Gathered(infos, done) && (found <==> AnyGap(done))
    ensures Gathered(infos', done + [kv]) && (found' <==> AnyGap(done + [kv]))
  {
    GapStep(done, kv);
    infos', found' := infos, found;
    if Relevant(kv) {
      var info := if kv.range in infos then infos[kv.range] else EMPTY;
      ScanStep(done, kv, infos, info);
      if kv.LogEntry? && info.first != 0 && kv.index != Succ(info.last) {
        found' := true;
      }
      infos' := infos[kv.range := Update(info, kv)];
    } else {
      ScanSkip(done, kv, infos);
    }
  }

  /** The scan: the records, whether an anomaly was printed, and whether all keys decoded. */
  method Scan(kvs: seq<KV>) returns (infos: map<RangeID, Info>, found: bool, ok: bool)
    ensures ok <==> Decodes(kvs)
    ensures ok ==> Gathered(infos, kvs) && (found <==> AnyGap(kvs))
  {
    infos, found, ok := map[], false, true;
    var n := 0;
    assert kvs[..0] == [] && Ranges([]) == {};
    while n < |kvs|
      invariant 0 <= n <= |kvs|
      invariant Gathered(infos, kvs[..n]) && (found <==> AnyGap(kvs[..n]))
      invariant forall i :: 0 <= i < n ==> !kvs[i].Undecodable?
    {
      if kvs[n].Undecodable? {
        return infos, found, false;
      }
      infos, found := ScanKey(kvs[..n], kvs[n], infos, found);
      assert kvs[..n + 1] == kvs[..n] + [kvs[n]];
      n := n + 1;
    }
    assert kvs[..n] == kvs;
  }

  /** The checks of the second pass on one record. */
  predicate RecordOk(info: Info) {
    && !(info.truncated != 0 && info.truncated != Pred(info.first))
    && !(info.first > info.last)
    && !(info.applied < info.first || info.applied > info.last)
    && !(info.applied > info.committed)
    && !(info.committed > info.last)
  }

  predicate Decodes(kvs: seq<KV>) {
    forall i :: 0 <= i < |kvs| ==> !kvs[i].Undecodable?
  }

  ghost function VerdictOn(kvs: seq<KV>): Verdict {
    if !Decodes(kvs) then DecodeError else if AllHealthy(kvs) then Sound else FoundProblem
  }

  /**
   * checkStoreRaftState over any keys in any order: a key that does not decode
   * ends it with an error; otherwise it reports no problem exactly when every
   * range seen is healthy.
   */
  method Check(kvs: seq<KV>) returns (v: Verdict)
    ensures v == VerdictOn(kvs)
  {
    var infos, found, ok := Scan(kvs);
    if !ok {
      return DecodeError;
    }
    ghost var gap := found;
    var todo := infos.Keys;
    while todo != {}
      invariant todo <= infos.Keys
      invariant found <==> gap || exists r :: r in infos.Keys - todo && !RecordOk(infos[r])
      decreases todo
    {
      var r :| r in todo;
      var info := infos[r];
      if info.truncated != 0 && info.truncated != Pred(info.first) {
        found := true;
      }
      if info.first > info.last {
        found := true;
      }
      if info.applied < info.first || info.applied > info.last {
        found := true;
      }
      if info.applied > info.committed {
        found := true;
      }
      if info.committed > info.last {
        found := true;
      }
      todo := todo - {r};
    }
    VerdictIsHealth(kvs, infos, gap);
    v := if found then FoundProblem else Sound;
  }

  lemma VerdictIsHealth(kvs: seq<KV>, infos: map<RangeID, Info>, gap: bool)
    requires Gathered(infos, kvs) && (gap <==> AnyGap(kvs))
    ensures (gap || exists r :: r in infos && !RecordOk(infos[r])) <==> !AllHealthy(kvs)
  {
    forall r
      ensures r !in infos ==> !Gap(kvs, r)
      ensures r in infos ==> (HealthyRange(kvs, r) <==> !Gap(kvs, r) && RecordOk(infos[r]))
    {
      if r !in infos {
        UnseenIsEmpty(kvs, r);
      } else {
        PredOfNext(infos[r].truncated, infos[r].first);
      }
    }
  }

  /** The kinds of key the check looks at. */
  datatype Kind = Hard | Truncation | Application | Log

  predicate HasKind(kv: KV, kind: Kind) {
    match kind
    case Hard => kv.HardState?
    case Truncation => kv.TruncatedState?
    case Application => kv.AppliedState?
    case Log => kv.LogEntry?
  }

  function Value(kv: KV): Index
    requires Relevant(kv)
  {
    if kv.HardState? then kv.commit else kv.index
  }

  /** The values of a range's keys of one kind, in key order. */
  function Values(kvs: seq<KV>, r: RangeID, kind: Kind): seq<Index> {
    if kvs == [] then []
    else
      var n := |kvs| - 1;
      Values(kvs[..n], r, kind) + if HasKind(kvs[n], kind) && kvs[n].range == r then [Value(kvs[n])] else []
  }

  lemma {:induction false} ValuesDecide(kvs: seq<KV>, r: RangeID)
    ensures Logs(kvs, r) == Values(kvs, r, Log)
    ensures Committed(kvs, r) == Last(Values(kvs, r, Hard))
    ensures Truncated(kvs, r) == Last(Values(kvs, r, Truncation))
    ensures Applied(kvs, r) == Last(Values(kvs, r, Application))
  {
    if kvs != [] {
      ValuesDecide(kvs[..|kvs| - 1], r);
    }
  }

  predicate HasValues(kvs: seq<KV>, r: RangeID) {
    || Values(kvs, r, Hard) != []
    || Values(kvs, r, Truncation) != []
    || Values(kvs, r, Application) != []
    || Values(kvs, r, Log) != []
  }

  lemma {:induction false} SeenHasValues(kvs: seq<KV>, r: RangeID)
    ensures r in Ranges(kvs) <==> HasValues(kvs, r)
  {
    if kvs != [] {
      var n := |kvs| - 1;
      SeenHasValues(kvs[..n], r);
      assert kvs == kvs[..n] + [kvs[n]];
      RangesSnoc(kvs[..n], kvs[n]);
    }
  }

  /**
   * Two scans that both decode or both do not, and in which every range has the
   * same keys of each kind in the same order, give the same verdict: how the keys of different ranges, or of
   * different kinds, interleave does not matter, and neither do other keys.
   */
  lemma InterleavingIrrelevant(p: seq<KV>, q: seq<KV>)
    requires forall r, kind :: Values(p, r, kind) == Values(q, r, kind)
    requires Decodes(p) <==> Decodes(q)
    ensures VerdictOn(p) == VerdictOn(q)
  {
    forall r
      ensures r in Ranges(p) <==> r in Ranges(q)
      ensures HealthyRange(p, r) <==> HealthyRange(q, r)
    {
      ValuesDecide(p, r);
      ValuesDecide(q, r);
      SeenHasValues(p, r);
      SeenHasValues(q, r);
    }
  }

  /**
   * What a sound verdict says of every range seen: its log is an interval without
   * a hole, the truncated index, if any, is right before it, and applied and
   * committed lie in it in this order.
   */
  lemma SoundMeans(kvs: seq<KV>, r: RangeID)
    requires VerdictOn(kvs) == Sound && HasValues(kvs, r)
    requires |DropZeros(Values(kvs, r, Log))| <= TWO64
    ensures var log := DropZeros(Values(kvs, r, Log));
            var first, last := First(log), Last(log);
            var truncated, applied, committed :=
              Last(Values(kvs, r, Truncation)), Last(Values(kvs, r, Application)), Last(Values(kvs, r, Hard));
            && (forall i :: 0 <= i < |log| ==> log[i] == first + i)
            && (truncated != 0 && log != [] ==> truncated + 1 == first)
            && first <= applied <= committed <= last
  {
    SeenHasValues(kvs, r);
    ValuesDecide(kvs, r);
    var log := DropZeros(Values(kvs, r, Log));
    assert HealthyRange(kvs, r);
    DropZerosStartsPositive(Values(kvs, r, Log));
    if log != [] {
      NoWrap(log);
    }
  }

  /** Consecutive indices whose last is not below the first do not wrap around. */
  lemma NoWrap(l: seq<Index>)
    requires l != [] && |l| <= TWO64 && Consecutive(l) && l[0] <= l[|l| - 1]
    ensures forall i :: 0 <= i < |l| ==> l[i] == l[0] + i
  {
    var n := |l| - 1;
    assert l[n] == (l[0] + n) % TWO64;
    WrapFallsBelow(l[0], n);
  }

  lemma WrapFallsBelow(a: Index, n: nat)
    requires n < TWO64
    ensures a + n >= TWO64 ==> (a + n) % TWO64 < a
  {
  }
}
