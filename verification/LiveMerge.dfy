/**
 * The merged stream over live buffered streams: a run in which the consumer's
 * pops are those the heap asks for. The heap holds stream numbers; it compares
 * streams by what they answer at the moment.
 */
module LiveMerge {
  import opened Common
  import opened LogEntry
  import opened HeapMerge
  import opened LogMerge
  import B = BufferedStream

  ghost function LiveAt(srcs: seq<Stream>, acts: seq<B.Action>, t: nat): (live: seq<B.Buffered>)
    requires t <= |acts|
    ensures |live| == |srcs|
  {
    B.After(srcs, acts[..t]).streams
  }

  ghost predicate Numbers(l: seq<nat>, n: nat) {
    && (forall k :: 0 <= k < |l| ==> l[k] < n)
    && (forall j, k :: 0 <= j < k < |l| ==> l[j] != l[k])
  }

  ghost predicate LiveOrdered(live: seq<B.Buffered>, l: seq<nat>)
    requires Numbers(l, |live|)
  {
    forall k :: 0 < k < |l| ==> !LiveLess(live[l[k]], live[l[Parent(k)]])
  }

  /** A moment at which no stream of the heap has to be waited for, and the heap is in order. */
  ghost predicate HeapAt(srcs: seq<Stream>, acts: seq<B.Action>, t: nat, l: seq<nat>) {
    && t <= |acts| && Numbers(l, |srcs|)
    && (forall k :: 0 <= k < |l| ==> !B.Waiting(LiveAt(srcs, acts, t)[l[k]]))
    && LiveOrdered(LiveAt(srcs, acts, t), l)
  }

  predicate IsPop(act: B.Action) {
    act.On? && act.act == B.Pop
  }

  /**
   * One turn of reading: the root, which shows an entry, is popped, and nothing
   * else until it answers again; then the heap is in order again, without the
   * root if it ended and did not fail.
   */
  ghost predicate Turn(srcs: seq<Stream>, acts: seq<B.Action>, t: nat, l: seq<nat>, t': nat, l': seq<nat>) {
    && HeapAt(srcs, acts, t, l) && HeapAt(srcs, acts, t', l')
    && l != [] && LiveAt(srcs, acts, t)[l[0]].ok
    && t < t' && acts[t] == B.On(l[0], B.Pop)
    && (forall k :: t < k < t' ==> !IsPop(acts[k]))
    && !B.Waiting(LiveAt(srcs, acts, t')[l[0]])
    && var root := LiveAt(srcs, acts, t')[l[0]];
       multiset(l') == if !root.ok && root.err.None? then multiset(l) - multiset{l[0]} else multiset(l)
  }

  /** The merged stream is read from its making on, by turns that end at the moments ts with the heaps ls. */
  ghost predicate IsRead(srcs: seq<Stream>, acts: seq<B.Action>, ts: seq<nat>, ls: seq<seq<nat>>) {
    && |ts| == |ls| > 0 && ts[0] == 0 && HeapAt(srcs, acts, 0, ls[0])
    && (forall i :: i in ls[0] <==> 0 <= i < |srcs| && srcs[i].rest != [])
    && forall k :: 0 <= k < |ts| - 1 ==> Turn(srcs, acts, ts[k], ls[k], ts[k + 1], ls[k + 1])
  }

  /** What the turns hand on. */
  ghost function Handed(srcs: seq<Stream>, acts: seq<B.Action>, ts: seq<nat>, ls: seq<seq<nat>>, k: nat): seq<Tagged>
    requires IsRead(srcs, acts, ts, ls) && k < |ts|
  {
    if k == 0 then []
    else
      assert Turn(srcs, acts, ts[k - 1], ls[k - 1], ts[k], ls[k]);
      var root := ls[k - 1][0];
      Handed(srcs, acts, ts, ls, k - 1) + [Tagged(LiveAt(srcs, acts, ts[k - 1])[root].e, root)]
  }

  /** Peek yields nothing: the heap is empty or its root has ended. */
  ghost predicate NothingLeft(srcs: seq<Stream>, acts: seq<B.Action>, t: nat, l: seq<nat>)
    requires HeapAt(srcs, acts, t, l)
  {
    l == [] || !LiveAt(srcs, acts, t)[l[0]].ok
  }

  ghost function ErrorRead(srcs: seq<Stream>, acts: seq<B.Action>, t: nat, l: seq<nat>): Option<Error>
    requires HeapAt(srcs, acts, t, l)
  {
    if l == [] then None else LiveAt(srcs, acts, t)[l[0]].err
  }

  /** What is left, at moment t, of the streams observed in the end. */
  ghost function LeftAt(srcs: seq<Stream>, acts: seq<B.Action>, t: nat): (all: seq<Stream>)
    requires t <= |acts|
    ensures |all| == |srcs|
  {
    seq(|srcs|, i requires 0 <= i < |srcs| =>
      Remaining(B.Observe(srcs, acts)[i], |LiveAt(srcs, acts, t)[i].delivered|))
  }

  function Pick(all: seq<Stream>, l: seq<nat>): seq<Stream>
    requires forall k :: 0 <= k < |l| ==> l[k] < |all|
  {
    seq(|l|, k requires 0 <= k < |l| => all[l[k]])
  }

  /** A live heap in order is a heap in order of what is left of the observed streams. */
  lemma FixedHeap(srcs: seq<Stream>, acts: seq<B.Action>, t: nat, l: seq<nat>)
    requires HeapAt(srcs, acts, t, l)
    ensures HeapOrdered(Pick(LeftAt(srcs, acts, t), l))
  {
    var f := Pick(LeftAt(srcs, acts, t), l);
    forall k | 0 <= k < |l|
      ensures Ordered(f, k)
    {
      if k > 0 {
        LessLooksFixed(srcs, acts, t, l[k], l[Parent(k)]);
      }
    }
  }

  /** Without a pop of the stream, what it has delivered stays. */
  lemma {:induction false} NoPopNoDelivery(srcs: seq<Stream>, acts: seq<B.Action>, t: nat, t': nat, i: nat)
    requires t <= t' <= |acts| && i < |srcs|
    requires forall k :: t <= k < t' ==> acts[k] != B.On(i, B.Pop)
    ensures LiveAt(srcs, acts, t')[i].delivered == LiveAt(srcs, acts, t)[i].delivered
  {
    if t < t' {
      NoPopNoDelivery(srcs, acts, t, t' - 1, i);
      assert acts[..t'][..t' - 1] == acts[..t' - 1];
    }
  }

  /** A pop of a stream that shows an entry delivers it. */
  lemma PopDelivers(srcs: seq<Stream>, acts: seq<B.Action>, t: nat, i: nat)
    requires t < |acts| && i < |srcs| && acts[t] == B.On(i, B.Pop)
    requires LiveAt(srcs, acts, t)[i].ok && !B.Waiting(LiveAt(srcs, acts, t)[i])
    ensures LiveAt(srcs, acts, t + 1)[i].delivered
         == LiveAt(srcs, acts, t)[i].delivered + [LiveAt(srcs, acts, t)[i].e]
  {
    assert acts[..t + 1][..t] == acts[..t];
  }

  /** A turn takes one entry from the root's stream and leaves the others alone. */
  lemma TurnLeaves(srcs: seq<Stream>, acts: seq<B.Action>, t: nat, l: seq<nat>, t': nat, l': seq<nat>)
    requires Turn(srcs, acts, t, l, t', l')
    ensures var before, after, root := LeftAt(srcs, acts, t), LeftAt(srcs, acts, t'), l[0];
            && before[root].rest != [] && before[root].rest[0] == LiveAt(srcs, acts, t)[root].e
            && after == before[root := Advanced(before[root])]
            && var r := LiveAt(srcs, acts, t')[root];
               (r.ok <==> after[root].rest != []) && (!r.ok ==> r.err == after[root].failure)
  {
    var before, after, root := LeftAt(srcs, acts, t), LeftAt(srcs, acts, t'), l[0];
    B.LooksFixed(srcs, acts, t, root);
    B.LooksFixed(srcs, acts, t', root);
    PopDelivers(srcs, acts, t, root);
    NoPopNoDelivery(srcs, acts, t + 1, t', root);
    forall i | 0 <= i < |srcs| && i != root
      ensures after[i] == before[i]
    {
      NoPopNoDelivery(srcs, acts, t, t', i);
    }
    var s, n := B.Observe(srcs, acts)[root], |LiveAt(srcs, acts, t)[root].delivered|;
    assert s.rest[n..][1..] == s.rest[n + 1..];
  }

  lemma SplitAt<T>(l: seq<T>, p: nat)
    requires p < |l|
    ensures multiset(l) == multiset(l[..p] + l[p + 1..]) + multiset{l[p]}
  {
    assert l == l[..p] + [l[p]] + l[p + 1..];
  }

  lemma Cancel<T>(a: multiset<T>, b: multiset<T>, x: T)
    requires a + multiset{x} == b + multiset{x}
    ensures a == b
  {
    assert a == a + multiset{x} - multiset{x};
    assert b == b + multiset{x} - multiset{x};
  }

  lemma WithoutFirst<T>(l: seq<T>)
    requires l != []
    ensures multiset(l[1..]) == multiset(l) - multiset{l[0]}
  {
    assert l == [l[0]] + l[1..];
  }

  lemma PickSplit(all: seq<Stream>, l: seq<nat>, p: nat)
    requires p < |l| && forall k :: 0 <= k < |l| ==> l[k] < |all|
    ensures multiset(Pick(all, l)) == multiset(Pick(all, l[..p] + l[p + 1..])) + multiset{all[l[p]]}
  {
    var f := Pick(all, l);
    SplitAt(f, p);
    assert Pick(all, l[..p] + l[p + 1..]) == f[..p] + f[p + 1..];
  }

  /** The order of the numbers does not matter for what is picked. */
  lemma {:induction false} PickSame(all: seq<Stream>, l: seq<nat>, l': seq<nat>)
    requires multiset(l) == multiset(l')
    requires forall k :: 0 <= k < |l| ==> l[k] < |all|
    requires forall k :: 0 <= k < |l'| ==> l'[k] < |all|
    ensures multiset(Pick(all, l)) == multiset(Pick(all, l'))
    decreases |l|
  {
    if l == [] {
      assert |multiset(l')| == 0;
    } else {
      assert l[0] in multiset(l');
      var p :| 0 <= p < |l'| && l'[p] == l[0];
      SplitAt(l, 0);
      SplitAt(l', p);
      PickSplit(all, l, 0);
      PickSplit(all, l', p);
      Cancel(multiset(l[..0] + l[1..]), multiset(l'[..p] + l'[p + 1..]), l[0]);
      PickSame(all, l[..0] + l[1..], l'[..p] + l'[p + 1..]);
    }
  }

  /** Picking after the first number's stream moved on. */
  lemma PickAdvanced(all: seq<Stream>, l: seq<nat>, s: Stream)
    requires l != [] && Numbers(l, |all|)
    ensures Pick(all, l) == [all[l[0]]] + Pick(all, l[1..])
    ensures Pick(all[l[0] := s], l) == [s] + Pick(all, l[1..])
    ensures Pick(all[l[0] := s], l[1..]) == Pick(all, l[1..])
  {
  }

  lemma PoppedFirst(root: Stream, others: seq<Stream>)
    requires root.rest != []
    ensures var next := Advanced(root);
            Popped(multiset([root] + others), root)
            == if next.rest == [] && next.failure.None? then multiset(others) else multiset([next] + others)
  {
    assert multiset([root] + others) - multiset{root} == multiset(others);
    assert multiset([Advanced(root)] + others) == multiset(others) + multiset{Advanced(root)};
  }

  lemma PickPops(all: seq<Stream>, l: seq<nat>, l': seq<nat>)
    requires l != [] && Numbers(l, |all|) && all[l[0]].rest != []
    requires forall k :: 0 <= k < |l'| ==> l'[k] < |all|
    requires var next := Advanced(all[l[0]]);
             multiset(l') == if next.rest == [] && next.failure.None? then multiset(l[1..]) else multiset(l)
    ensures multiset(Pick(all[l[0] := Advanced(all[l[0]])], l')) == Popped(multiset(Pick(all, l)), all[l[0]])
  {
    var next := Advanced(all[l[0]]);
    PickAdvanced(all, l, next);
    PoppedFirst(all[l[0]], Pick(all, l[1..]));
    PickSame(all[l[0] := next], l', if next.rest == [] && next.failure.None? then l[1..] else l);
  }

  /** A turn does to the fixed heap what one pop does. */
  lemma TurnPops(srcs: seq<Stream>, acts: seq<B.Action>, t: nat, l: seq<nat>, t': nat, l': seq<nat>)
    requires Turn(srcs, acts, t, l, t', l')
    ensures var f, f' := Pick(LeftAt(srcs, acts, t), l), Pick(LeftAt(srcs, acts, t'), l');
            f[0].rest != [] && multiset(f') == Popped(multiset(f), f[0])
  {
    TurnLeaves(srcs, acts, t, l, t', l');
    WithoutFirst(l);
    PickPops(LeftAt(srcs, acts, t), l, l');
  }

  lemma ObservedNumbered(srcs: seq<Stream>, acts: seq<B.Action>)
    requires Numbered(srcs)
    ensures Numbered(B.Observe(srcs, acts))
    ensures forall t :: 0 <= t <= |acts| ==> Numbered(LeftAt(srcs, acts, t))
  {
  }

  lemma PickedAreDistinct(all: seq<Stream>, l: seq<nat>)
    requires Numbered(all) && Numbers(l, |all|) && forall k :: 0 <= k < |l| ==> all[l[k]].rest != []
    ensures var f := Pick(all, l);
            DistinctFiles(multiset(f)) && forall s :: s in multiset(f) ==> StreamIn(s, all)
  {
    var f := Pick(all, l);
    forall s | s in multiset(f)
      ensures StreamIn(s, all) && multiset(f)[s] == 1
    {
      var k :| 0 <= k < |f| && f[k] == s;
      CountsOnce(f, k);
    }
  }

  lemma PickedHolds(all: seq<Stream>, l: seq<nat>)
    requires Numbered(all) && Numbers(l, |all|)
    requires forall i :: i in l <==> 0 <= i < |all| && all[i].rest != []
    ensures var f := Pick(all, l);
            Holding(multiset(f), all) && DistinctFiles(multiset(f)) && Live(f)
  {
    var f := Pick(all, l);
    assert forall k :: 0 <= k < |l| ==> l[k] in l;
    PickedAreDistinct(all, l);
    forall i | 0 <= i < |all|
      ensures all[i].rest != [] ==> all[i] in multiset(f)
      ensures Left(multiset(f), i) == all[i].rest
    {
      if i in l {
        var k :| 0 <= k < |l| && l[k] == i;
        assert f[k] == all[i] && f[k] in multiset(f);
        LeftOf(multiset(f), all[i]);
      } else {
        assert !HasFile(multiset(f), i);
      }
    }
  }

  /** At the beginning the fixed heap holds exactly the observed streams that yield something. */
  lemma StartHolds(srcs: seq<Stream>, acts: seq<B.Action>, l: seq<nat>)
    requires Numbered(srcs) && HeapAt(srcs, acts, 0, l)
    requires forall i :: i in l <==> 0 <= i < |srcs| && srcs[i].rest != []
    ensures LeftAt(srcs, acts, 0) == B.Observe(srcs, acts)
    ensures var f, obs := Pick(LeftAt(srcs, acts, 0), l), B.Observe(srcs, acts);
            Holding(multiset(f), obs) && DistinctFiles(multiset(f)) && Live(f)
  {
    B.ObserveIsFair(srcs, acts);
    ObservedNumbered(srcs, acts);
    assert acts[..0] == [];
    PickedHolds(B.Observe(srcs, acts), l);
  }

  lemma StartsReading(all: seq<Stream>, f: seq<Stream>)
    requires Holding(multiset(f), all) && DistinctFiles(multiset(f))
    requires forall i :: 0 <= i < |all| ==> SortedByTime(all[i].rest)
    ensures Merging(multiset(f), [], multiset(f)) && InTimeOrder([], multiset(f))
  {
    assert forall i :: Splits(multiset(f), [], multiset(f), i);
    assert forall s :: s in multiset(f) ==> StreamIn(s, all);
  }

  /** The end of reading on the fixed heap. */
  lemma EndsReading(obs: seq<Stream>, f0: seq<Stream>, out: seq<Tagged>, f: seq<Stream>, err: Option<Error>)
    requires Holding(multiset(f0), obs) && DistinctFiles(multiset(f0))
    requires forall i :: 0 <= i < |obs| ==> !FailsAtOnce(obs[i])
    requires Live(f) && Merging(multiset(f0), out, multiset(f)) && SortedByTime(Entries(out))
    requires f == [] || f[0].rest == []
    requires err == if f == [] then None else f[0].failure
    ensures IsMerge(out, err, obs)
  {
    ReadAllDone(multiset(f0), out, f);
    ReadIsMerge(multiset(f0), obs, out, err);
  }

  /** The invariant of reading, on the fixed heap. */
  ghost predicate Reading(srcs: seq<Stream>, acts: seq<B.Action>, ts: seq<nat>, ls: seq<seq<nat>>, k: nat)
    requires IsRead(srcs, acts, ts, ls) && k < |ts| && HeapAt(srcs, acts, ts[k], ls[k])
  {
    var ms0 := multiset(Pick(LeftAt(srcs, acts, 0), ls[0]));
    var f, out := Pick(LeftAt(srcs, acts, ts[k]), ls[k]), Handed(srcs, acts, ts, ls, k);
    Live(f) && Merging(ms0, out, multiset(f)) && InTimeOrder(out, multiset(f))
  }

  lemma ReadingTurn(srcs: seq<Stream>, acts: seq<B.Action>, ts: seq<nat>, ls: seq<seq<nat>>, k: nat)
    requires IsRead(srcs, acts, ts, ls) && Numbered(srcs) && k + 1 < |ts|
    requires HeapAt(srcs, acts, ts[k], ls[k]) && Reading(srcs, acts, ts, ls, k)
    ensures HeapAt(srcs, acts, ts[k + 1], ls[k + 1]) && Reading(srcs, acts, ts, ls, k + 1)
  {
    var t, l, t', l' := ts[k], ls[k], ts[k + 1], ls[k + 1];
    assert Turn(srcs, acts, t, l, t', l');
    var ms0 := multiset(Pick(LeftAt(srcs, acts, 0), ls[0]));
    var f, f', out := Pick(LeftAt(srcs, acts, t), l), Pick(LeftAt(srcs, acts, t'), l'), Handed(srcs, acts, ts, ls, k);
    TurnPops(srcs, acts, t, l, t', l');
    TurnLeaves(srcs, acts, t, l, t', l');
    FixedHeap(srcs, acts, t, l);
    FixedHeap(srcs, acts, t', l');
    ObservedNumbered(srcs, acts);
    ReadStep(ms0, out, f, true);
    LiveAfterPop(f, f[0], f');
    assert Handed(srcs, acts, ts, ls, k + 1) == out + [Tagged(f[0].rest[0], f[0].file)];
  }

  lemma {:induction false} ReadKeepsReading(
      srcs: seq<Stream>, acts: seq<B.Action>, ts: seq<nat>, ls: seq<seq<nat>>, k: nat)
    requires IsRead(srcs, acts, ts, ls) && Numbered(srcs) && k < |ts|
    requires forall i :: 0 <= i < |srcs| ==> SortedByTime(srcs[i].rest) && !FailsAtOnce(srcs[i])
    ensures HeapAt(srcs, acts, ts[k], ls[k]) && Reading(srcs, acts, ts, ls, k)
  {
    if k > 0 {
      ReadKeepsReading(srcs, acts, ts, ls, k - 1);
      ReadingTurn(srcs, acts, ts, ls, k - 1);
    } else {
      StartHolds(srcs, acts, ls[0]);
      B.ObserveIsFair(srcs, acts);
      FairKeepsStreams(srcs, B.Observe(srcs, acts));
      StartsReading(B.Observe(srcs, acts), Pick(LeftAt(srcs, acts, 0), ls[0]));
    }
  }

  /** What the heap shows in the end, on the fixed heap. */
  lemma LastMoment(srcs: seq<Stream>, acts: seq<B.Action>, t: nat, l: seq<nat>)
    requires HeapAt(srcs, acts, t, l) && NothingLeft(srcs, acts, t, l)
    ensures var f := Pick(LeftAt(srcs, acts, t), l);
            && (f == [] || f[0].rest == [])
            && ErrorRead(srcs, acts, t, l) == if f == [] then None else f[0].failure
  {
    if l != [] {
      B.LooksFixed(srcs, acts, t, l[0]);
    }
  }

  lemma FinishReading(srcs: seq<Stream>, acts: seq<B.Action>, l0: seq<nat>, t: nat, l: seq<nat>, out: seq<Tagged>)
    requires Numbered(srcs) && forall i :: 0 <= i < |srcs| ==> SortedByTime(srcs[i].rest) && !FailsAtOnce(srcs[i])
    requires HeapAt(srcs, acts, 0, l0) && forall i :: i in l0 <==> 0 <= i < |srcs| && srcs[i].rest != []
    requires HeapAt(srcs, acts, t, l) && NothingLeft(srcs, acts, t, l)
    requires var f0, f := Pick(LeftAt(srcs, acts, 0), l0), Pick(LeftAt(srcs, acts, t), l);
             Live(f) && Merging(multiset(f0), out, multiset(f)) && InTimeOrder(out, multiset(f))
    ensures IsMerge(out, ErrorRead(srcs, acts, t, l), srcs)
  {
    var obs, err := B.Observe(srcs, acts), ErrorRead(srcs, acts, t, l);
    LastMoment(srcs, acts, t, l);
    StartHolds(srcs, acts, l0);
    B.ObserveIsFair(srcs, acts);
    FairKeepsStreams(srcs, obs);
    EndsReading(obs, Pick(obs, l0), out, Pick(LeftAt(srcs, acts, t), l), err);
    FairMerge(out, err, srcs, obs);
  }

  /**
   * Whatever the producers, the scheduler and the cancellation do: when the heap
   * over live streams has nothing left to show, what it handed on and the error
   * it gives are a merge of the sources.
   */
  lemma LiveReadIsMerge(srcs: seq<Stream>, acts: seq<B.Action>, ts: seq<nat>, ls: seq<seq<nat>>)
    requires IsRead(srcs, acts, ts, ls) && Numbered(srcs)
    requires forall i :: 0 <= i < |srcs| ==> SortedByTime(srcs[i].rest) && !FailsAtOnce(srcs[i])
    ensures var n := |ts| - 1;
            && HeapAt(srcs, acts, ts[n], ls[n])
            && (NothingLeft(srcs, acts, ts[n], ls[n]) ==>
                  IsMerge(Handed(srcs, acts, ts, ls, n), ErrorRead(srcs, acts, ts[n], ls[n]), srcs))
  {
    var n := |ts| - 1;
    ReadKeepsReading(srcs, acts, ts, ls, n);
    if NothingLeft(srcs, acts, ts[n], ls[n]) {
      FinishReading(srcs, acts, ls[0], ts[n], ls[n], Handed(srcs, acts, ts, ls, n));
    }
  }
}
