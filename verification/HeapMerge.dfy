/**
 * The merged stream: a binary heap of log streams ordered by the entry each
 * would yield next, driven by the sift loops of Go's container/heap.
 */
module HeapMerge {
  import opened Common
  import opened LogEntry

  /** An entry together with the file it came from. */
  datatype Tagged = Tagged(entry: Entry, file: nat)

  predicate Less(a: Stream, b: Stream) {
    if a.rest != [] && b.rest != [] then a.rest[0].time < b.rest[0].time
    else a.rest == [] && b.rest != []
  }

  function Parent(i: nat): nat
    requires i > 0
  {
    (i - 1) / 2
  }

  ghost predicate Ordered(l: seq<Stream>, i: nat)
    requires i < |l|
  {
    i == 0 || !Less(l[i], l[Parent(i)])
  }

  ghost predicate HeapOrdered(l: seq<Stream>) {
    forall i :: 0 <= i < |l| ==> Ordered(l, i)
  }

  /** The root of a heap is minimal. */
  lemma {:induction false} RootIsLeast(l: seq<Stream>, i: nat)
    requires HeapOrdered(l) && i < |l|
    ensures !Less(l[i], l[0])
  {
    if i > 0 {
      assert Ordered(l, i);
      RootIsLeast(l, Parent(i));
    }
  }

  /** Swapping two positions keeps the multiset. */
  lemma SwapKeepsElements<T>(l: seq<T>, i: nat, j: nat)
    requires i < |l| && j < |l|
    ensures multiset(l[i := l[j]][j := l[i]]) == multiset(l)
  {
  }

  function Swapped<T>(l: seq<T>, i: nat, j: nat): seq<T>
    requires i < |l| && j < |l|
  {
    l[i := l[j]][j := l[i]]
  }

  /** Sifting down: only i's children may be out of order, and they respect i's parent. */
  ghost predicate SiftingDown(l: seq<Stream>, n: nat, i0: nat, i: nat)
    requires n <= |l|
  {
    && (forall k :: 0 < k < n && Parent(k) >= i0 && Parent(k) != i ==> Ordered(l, k))
    && i0 <= i
    && (i0 < i < n ==> i0 <= Parent(i) && forall k :: 0 < k < n && Parent(k) == i ==> !Less(l[k], l[Parent(i)]))
  }

  lemma DownStep(l: seq<Stream>, n: nat, i0: nat, i: nat, j: nat)
    requires n <= |l| && 0 < j < n && Parent(j) == i
    requires SiftingDown(l, n, i0, i)
    requires Less(l[j], l[i])
    requires forall k :: 0 < k < n && Parent(k) == i ==> !Less(l[k], l[j])
    ensures SiftingDown(Swapped(l, i, j), n, i0, j)
  {
    var m := Swapped(l, i, j);
    forall k | 0 < k < n && Parent(k) >= i0 && Parent(k) != j
      ensures Ordered(m, k)
    {
      if Parent(k) != i {
        assert Ordered(l, k);
      }
    }
    forall k | 0 < k < n && Parent(k) == j
      ensures !Less(m[k], m[i])
    {
      assert Ordered(l, k);
    }
  }

  /** Sifting up: only j may be out of order, and its children respect j's parent. */
  ghost predicate SiftingUp(l: seq<Stream>, j: nat) {
    && j < |l|
    && (forall k :: 0 <= k < |l| && k != j ==> Ordered(l, k))
    && (j > 0 ==> forall k :: 0 < k < |l| && Parent(k) == j ==> !Less(l[k], l[Parent(j)]))
  }

  lemma UpStep(l: seq<Stream>, j: nat)
    requires SiftingUp(l, j) && j > 0 && Less(l[j], l[Parent(j)])
    ensures SiftingUp(Swapped(l, Parent(j), j), Parent(j))
  {
    var i := Parent(j);
    var m := Swapped(l, i, j);
    assert Ordered(l, i);
    forall k | 0 <= k < |l| && k != i
      ensures Ordered(m, k)
    {
      if k != j {
        assert Ordered(l, k);
      }
    }
    forall k | 0 < k < |l| && Parent(k) == i && i > 0
      ensures !Less(m[k], m[Parent(i)])
    {
      if k != j {
        assert Ordered(l, k);
      }
    }
  }

  /** Replacing the root leaves everything but the root's children ordered. */
  ghost predicate OrderedBelowRoot(l: seq<Stream>) {
    forall k :: 0 < k < |l| && Parent(k) > 0 ==> Ordered(l, k)
  }

  lemma LastToRoot(l: seq<Stream>)
    requires l != [] && OrderedBelowRoot(l)
    ensures SiftingDown(Swapped(l, 0, |l| - 1), |l| - 1, 0, 0)
  {
    var n := |l| - 1;
    forall k | 0 < k < n && Parent(k) != 0
      ensures Ordered(Swapped(l, 0, n), k)
    {
      assert Ordered(l, k);
    }
  }

  /** Only the root may be exhausted, and only when its stream failed. */
  ghost predicate Live(l: seq<Stream>) {
    forall k :: 0 <= k < |l| ==> l[k].rest != [] || (k == 0 && l[0].failure.Some?)
  }

  /** A stream after one more entry was taken from it. */
  function Advanced(s: Stream): Stream
    requires s.rest != []
  {
    s.(rest := s.rest[1..])
  }

  ghost predicate DistinctFiles(ms: multiset<Stream>) {
    && (forall s, t :: s in ms && t in ms && s.file == t.file ==> s == t)
    && (forall s :: s in ms ==> ms[s] == 1)
  }

  ghost predicate HasFile(ms: multiset<Stream>, f: nat) {
    exists s :: s in ms && s.file == f
  }

  /** What the stream of file f still holds; nothing when it has left the heap. */
  ghost function Left(ms: multiset<Stream>, f: nat): seq<Entry> {
    if HasFile(ms, f) then
      var s :| s in ms && s.file == f;
      s.rest
    else []
  }

  lemma LeftOf(ms: multiset<Stream>, s: Stream)
    requires DistinctFiles(ms) && s in ms
    ensures Left(ms, s.file) == s.rest
  {
    assert HasFile(ms, s.file);
  }

  /** Entries still held by all streams together. */
  ghost function Total(ms: multiset<Stream>): nat
    decreases |ms|
  {
    if ms == multiset{} then 0
    else
      var s :| s in ms;
      |s.rest| + Total(ms - multiset{s})
  }

  lemma {:induction false} TotalWithout(ms: multiset<Stream>, s: Stream)
    requires s in ms
    ensures Total(ms) == |s.rest| + Total(ms - multiset{s})
    decreases |ms|
  {
    var t :| t in ms && Total(ms) == |t.rest| + Total(ms - multiset{t});
    if s != t {
      var both := ms - multiset{s} - multiset{t};
      assert both == ms - multiset{t} - multiset{s};
      TotalWithout(ms - multiset{t}, s);
      TotalWithout(ms - multiset{s}, t);
    }
  }

  /** The entries of one file among the merged ones, in order. */
  function Project(out: seq<Tagged>, f: nat): seq<Entry> {
    if out == [] then []
    else
      var n := |out| - 1;
      if out[n].file == f then Project(out[..n], f) + [out[n].entry] else Project(out[..n], f)
  }

  lemma ProjectSnoc(out: seq<Tagged>, t: Tagged, f: nat)
    ensures Project(out + [t], f) == if t.file == f then Project(out, f) + [t.entry] else Project(out, f)
  {
    assert (out + [t])[..|out|] == out;
  }

  function Entries(out: seq<Tagged>): seq<Entry> {
    seq(|out|, i requires 0 <= i < |out| => out[i].entry)
  }

  /** What one pop does to the streams: the root moves on, or leaves when it ended with io.EOF. */
  ghost function Popped(ms: multiset<Stream>, root: Stream): multiset<Stream>
    requires root.rest != []
  {
    var next := Advanced(root);
    var others := ms - multiset{root};
    if next.rest == [] && next.failure.None? then others else others + multiset{next}
  }

  lemma PoppedKeepsDistinct(ms: multiset<Stream>, root: Stream)
    requires DistinctFiles(ms) && root in ms && root.rest != []
    ensures DistinctFiles(Popped(ms, root))
  {
    var next, others := Advanced(root), ms - multiset{root};
    assert next !in ms;
    assert root !in others;
    forall s | s in Popped(ms, root)
      ensures s == next || (s in ms && s != root)
    {
    }
  }

  lemma PoppedLeft(ms: multiset<Stream>, root: Stream, f: nat)
    requires DistinctFiles(ms) && root in ms && root.rest != []
    ensures Left(ms, f)
         == if root.file == f then [root.rest[0]] + Left(Popped(ms, root), f) else Left(Popped(ms, root), f)
  {
    PoppedKeepsDistinct(ms, root);
    var ms' := Popped(ms, root);
    var next, others := Advanced(root), ms - multiset{root};
    assert root !in others;
    if f == root.file {
      LeftOf(ms, root);
      if next in ms' {
        LeftOf(ms', next);
      } else {
        assert !HasFile(ms', f);
      }
    } else if HasFile(ms, f) {
      var s :| s in ms && s.file == f;
      LeftOf(ms, s);
      assert s in others && s in ms';
      LeftOf(ms', s);
    } else {
      assert !HasFile(ms', f);
    }
  }

  /** The merged entries of file f followed by what it still holds are all its entries. */
  ghost predicate Splits(ms0: multiset<Stream>, out: seq<Tagged>, ms: multiset<Stream>, f: nat) {
    Project(out, f) + Left(ms, f) == Left(ms0, f)
  }

  /** The failures the streams will report. */
  ghost function Failures(ms: multiset<Stream>): set<(nat, Error)> {
    set s | s in ms && s.failure.Some? :: (s.file, s.failure.value)
  }

  ghost predicate Merging(ms0: multiset<Stream>, out: seq<Tagged>, ms: multiset<Stream>) {
    && DistinctFiles(ms)
    && (forall f :: Splits(ms0, out, ms, f))
    && Failures(ms) == Failures(ms0)
  }

  lemma ConcatAssoc<T>(a: seq<T>, b: seq<T>, c: seq<T>)
    ensures a + (b + c) == (a + b) + c
  {
  }

  lemma SplitsStep(ms0: multiset<Stream>, out: seq<Tagged>, ms: multiset<Stream>, root: Stream, f: nat)
    requires DistinctFiles(ms) && root in ms && root.rest != [] && Splits(ms0, out, ms, f)
    ensures Splits(ms0, out + [Tagged(root.rest[0], root.file)], Popped(ms, root), f)
  {
    var t := Tagged(root.rest[0], root.file);
    ProjectSnoc(out, t, f);
    PoppedLeft(ms, root, f);
    if t.file == f {
      ConcatAssoc(Project(out, f), [t.entry], Left(Popped(ms, root), f));
    }
  }

  lemma PoppedFailures(ms: multiset<Stream>, root: Stream)
    requires root in ms && root.rest != [] && ms[root] == 1
    ensures Failures(Popped(ms, root)) == Failures(ms)
  {
    var ms', next, others := Popped(ms, root), Advanced(root), ms - multiset{root};
    forall x | x in Failures(ms)
      ensures x in Failures(ms')
    {
      var s :| s in ms && s.failure.Some? && x == (s.file, s.failure.value);
      var t := if s == root then next else s;
      assert t in ms' && t.failure.Some? && x == (t.file, t.failure.value);
    }
    forall x | x in Failures(ms')
      ensures x in Failures(ms)
    {
      var s :| s in ms' && s.failure.Some? && x == (s.file, s.failure.value);
      var t := if s in ms then s else root;
      assert t in ms && t.failure.Some? && x == (t.file, t.failure.value);
    }
  }

  lemma MergingStep(ms0: multiset<Stream>, out: seq<Tagged>, ms: multiset<Stream>, root: Stream)
    requires Merging(ms0, out, ms) && root in ms && root.rest != []
    ensures Merging(ms0, out + [Tagged(root.rest[0], root.file)], Popped(ms, root))
  {
    PoppedKeepsDistinct(ms, root);
    PoppedFailures(ms, root);
    forall f
      ensures Splits(ms0, out + [Tagged(root.rest[0], root.file)], Popped(ms, root), f)
    {
      SplitsStep(ms0, out, ms, root, f);
    }
  }

  /** The merged entries are in time order and none exceeds what is still to come. */
  ghost predicate InTimeOrder(out: seq<Tagged>, ms: multiset<Stream>) {
    && SortedByTime(Entries(out))
    && (forall s :: s in ms ==> SortedByTime(s.rest))
    && (forall s, i :: s in ms && 0 <= i < |out| && s.rest != [] ==> out[i].entry.time <= s.rest[0].time)
  }

  lemma InTimeOrderStep(out: seq<Tagged>, ms: multiset<Stream>, root: Stream)
    requires InTimeOrder(out, ms) && root in ms && root.rest != []
    requires forall s :: s in ms ==> !Less(s, root)
    ensures InTimeOrder(out + [Tagged(root.rest[0], root.file)], Popped(ms, root))
  {
    var out', ms' := out + [Tagged(root.rest[0], root.file)], Popped(ms, root);
    assert Entries(out') == Entries(out) + [root.rest[0]];
    assert forall i :: 0 <= i < |out| ==> Entries(out)[i] == out[i].entry;
    forall s | s in ms'
      ensures SortedByTime(s.rest)
      ensures s.rest != [] ==> root.rest[0].time <= s.rest[0].time
    {
      assert s in ms || s == Advanced(root);
    }
  }

  class Merged {
    var l: seq<Stream>

    constructor (streams: seq<Stream>)
      ensures HeapOrdered(l)
      ensures multiset(l) == multiset(streams)
    {
      l := streams;
      new;
      Init();
    }

    method Swap(i: nat, j: nat)
      requires i < |l| && j < |l|
      modifies this
      ensures l == Swapped(old(l), i, j)
      ensures multiset(l) == old(multiset(l))
    {
      SwapKeepsElements(l, i, j);
      l := l[i := l[j]][j := l[i]];
    }

    /** heap.Init */
    method Init()
      modifies this
      ensures HeapOrdered(l)
      ensures multiset(l) == old(multiset(l))
    {
      var n := |l|;
      var i := n / 2 - 1;
      while i >= 0
        invariant -1 <= i <= n / 2 - 1
        invariant |l| == n
        invariant multiset(l) == old(multiset(l))
        invariant forall k :: 0 < k < n && Parent(k) > i ==> Ordered(l, k)
      {
        Down(i, n);
        i := i - 1;
      }
    }

    /** Sifts position i0 down within the first n positions. */
    method Down(i0: nat, n: nat)
      requires n <= |l| && SiftingDown(l, n, i0, i0)
      modifies this
      ensures |l| == old(|l|)
      ensures multiset(l) == old(multiset(l))
      ensures l[n..] == old(l[n..])
      ensures forall k :: 0 < k < n && Parent(k) >= i0 ==> Ordered(l, k)
    {
      var i := i0;
      while true
        invariant |l| == old(|l|)
        invariant multiset(l) == old(multiset(l))
        invariant l[n..] == old(l[n..])
        invariant SiftingDown(l, n, i0, i)
        decreases n - i
      {
        var j1 := 2 * i + 1;
        if j1 >= n {
          break;
        }
        var j := j1;
        var j2 := j1 + 1;
        if j2 < n && Less(l[j2], l[j1]) {
          j := j2;
        }
        assert forall k :: 0 < k < n && Parent(k) == i ==> k == j1 || k == j2;
        if !Less(l[j], l[i]) {
          break;
        }
        DownStep(l, n, i0, i, j);
        Swap(i, j);
        i := j;
      }
    }

    /** Sifts the last position up. */
    method Up()
      requires l != [] && SiftingUp(l, |l| - 1)
      modifies this
      ensures HeapOrdered(l)
      ensures multiset(l) == old(multiset(l))
    {
      var j: nat := |l| - 1;
      while true
        invariant multiset(l) == old(multiset(l))
        invariant SiftingUp(l, j)
        decreases j
      {
        var i := if j == 0 then 0 else Parent(j);
        if i == j || !Less(l[j], l[i]) {
          break;
        }
        UpStep(l, j);
        Swap(i, j);
        j := i;
      }
    }

    /** heap.Push */
    method HeapPush(s: Stream)
      requires HeapOrdered(l)
      modifies this
      ensures HeapOrdered(l)
      ensures multiset(l) == old(multiset(l)) + multiset{s}
    {
      forall k | 0 <= k < |l|
        ensures Ordered(l + [s], k)
      {
        assert Ordered(l, k);
      }
      l := l + [s];
      Up();
    }

    /** heap.Pop; the caller may have changed the root. */
    method HeapPop() returns (s: Stream)
      requires l != [] && OrderedBelowRoot(l)
      modifies this
      ensures s == old(l)[0]
      ensures HeapOrdered(l)
      ensures multiset(l) == old(multiset(l)) - multiset{s}
    {
      var n := |l| - 1;
      LastToRoot(l);
      Swap(0, n);
      Down(0, n);
      s := l[n];
      assert l[n] == l[n..][0];
      assert l == l[..n] + [s];
      forall k | 0 <= k < n
        ensures Ordered(l[..n], k)
      {
        assert k > 0 ==> Ordered(l, k);
      }
      l := l[..n];
    }

    /** The entry the merged stream would yield next. */
    function Peek(): (e: Option<Entry>)
      reads this
    {
      if l == [] || l[0].rest == [] then None else Some(l[0].rest[0])
    }

    /** error(): the root's failure; only asked for once Peek yields nothing. */
    function Failure(): (e: Option<Error>)
      reads this
    {
      if l == [] then None else l[0].failure
    }

    /** After an entry was taken from the root: sift it, leave it when it failed, or drop it at its end. */
    method Restore() returns (failed: bool)
      requires l != [] && OrderedBelowRoot(l) && (l[0].rest == [] ==> HeapOrdered(l))
      modifies this
      ensures HeapOrdered(l)
      ensures var root := old(l)[0];
              && (failed <==> root.rest == [] && root.failure.Some?)
              && multiset(l) == (if root.rest == [] && root.failure.None? then old(multiset(l)) - multiset{root}
                                 else old(multiset(l)))
    {
      if l[0].rest != [] {
        AddRemove(multiset(l) - multiset{l[0]}, l[0]);
        var top := HeapPop();
        HeapPush(top);
        return false;
      }
      if l[0].failure.Some? {
        return true;
      }
      var _ := HeapPop();
      return false;
    }

    /**
     * Takes the next entry and restores the heap. The result is what Peek gave,
     * unless that was the last entry before the root's stream failed.
     */
    method Pop() returns (e: Entry, ok: bool)
      requires HeapOrdered(l) && Live(l)
      modifies this
      ensures HeapOrdered(l) && Live(l)
      ensures old(Peek()).None? ==> !ok && l == old(l)
      ensures old(Peek()).Some? ==>
                var root := old(l)[0];
                && multiset(l) == Popped(old(multiset(l)), root)
                && (ok <==> !(|root.rest| == 1 && root.failure.Some?))
                && e == (if ok then root.rest[0] else ZERO)
    {
      var p := Peek();
      if p.None? {
        return ZERO, false;
      }
      e, ok := p.value, true;
      var root := l[0];
      ghost var next := Advanced(root);
      RootChanged(l, next);
      AddRemove(multiset(l) - multiset{root}, next);
      l := l[0 := root.(rest := root.rest[1..])];
      var failed := Restore();
      if failed {
        e, ok := ZERO, false;
      }
      LiveAfterPop(old(l), root, l);
    }

    /**
     * The loop of `read` over the merged stream: peek, hand on, pop, until
     * nothing is left to peek; then ask for the error.
     */
    method ReadAll() returns (out: seq<Tagged>, err: Option<Error>)
      requires HeapOrdered(l) && Live(l) && DistinctFiles(multiset(l))
      modifies this
      ensures forall f :: Project(out, f) <= Left(old(multiset(l)), f)
      ensures err.None? ==> forall f :: Project(out, f) == Left(old(multiset(l)), f)
      ensures err.Some? <==> exists s :: s in old(multiset(l)) && s.failure.Some?
      ensures err.Some? ==> exists s :: s in old(multiset(l)) && s.failure == err && Project(out, s.file) == s.rest
      ensures (forall s :: s in old(multiset(l)) ==> SortedByTime(s.rest)) ==> SortedByTime(Entries(out))
    {
      ghost var ms0 := multiset(l);
      ghost var sorted := forall s :: s in ms0 ==> SortedByTime(s.rest);
      out := [];
      assert forall f :: Splits(ms0, [], ms0, f);
      while Peek().Some?
        invariant HeapOrdered(l) && Live(l)
        invariant Merging(ms0, out, multiset(l))
        invariant sorted ==> InTimeOrder(out, multiset(l))
        decreases Total(multiset(l))
      {
        ReadStep(ms0, out, l, sorted);
        out := out + [Tagged(Peek().value, l[0].file)];
        var _, _ := Pop();
      }
      err := Failure();
      ReadAllDone(ms0, out, l);
    }
  }

  lemma AddRemove<T>(m: multiset<T>, x: T)
    ensures m + multiset{x} - multiset{x} == m
  {
  }

  /** After s.pop() on the root: everything below the root is as before. */
  lemma RootChanged(l: seq<Stream>, next: Stream)
    requires l != [] && HeapOrdered(l)
    ensures OrderedBelowRoot(l[0 := next])
    ensures multiset(l[0 := next]) == multiset(l) - multiset{l[0]} + multiset{next}
    ensures next.rest == [] ==> HeapOrdered(l[0 := next])
  {
    assert l == [l[0]] + l[1..] && l[0 := next] == [next] + l[1..];
    forall k | 0 < k < |l| && (Parent(k) > 0 || next.rest == [])
      ensures Ordered(l[0 := next], k)
    {
      assert Ordered(l, k);
    }
  }

  lemma ReadStep(ms0: multiset<Stream>, out: seq<Tagged>, l: seq<Stream>, sorted: bool)
    requires l != [] && l[0].rest != [] && HeapOrdered(l) && Merging(ms0, out, multiset(l))
    requires sorted ==> InTimeOrder(out, multiset(l))
    ensures Merging(ms0, out + [Tagged(l[0].rest[0], l[0].file)], Popped(multiset(l), l[0]))
    ensures sorted ==> InTimeOrder(out + [Tagged(l[0].rest[0], l[0].file)], Popped(multiset(l), l[0]))
    ensures Total(Popped(multiset(l), l[0])) < Total(multiset(l))
  {
    var ms := multiset(l);
    assert l[0] in ms;
    forall s | s in ms
      ensures !Less(s, l[0])
    {
      var i :| 0 <= i < |l| && l[i] == s;
      RootIsLeast(l, i);
    }
    if sorted {
      InTimeOrderStep(out, ms, l[0]);
    }
    MergingStep(ms0, out, ms, l[0]);
    PoppedTotal(ms, l[0]);
  }

  lemma PoppedTotal(ms: multiset<Stream>, root: Stream)
    requires root in ms && root.rest != []
    ensures Total(Popped(ms, root)) < Total(ms)
  {
    var next, others := Advanced(root), ms - multiset{root};
    TotalWithout(ms, root);
    if next in Popped(ms, root) && Popped(ms, root) != others {
      TotalWithout(others + multiset{next}, next);
      assert others + multiset{next} - multiset{next} == others;
    }
  }

  lemma LiveAfterPop(before: seq<Stream>, root: Stream, after: seq<Stream>)
    requires Live(before) && before != [] && before[0] == root && root.rest != []
    requires HeapOrdered(after)
    requires multiset(after) == Popped(multiset(before), root)
    ensures Live(after)
  {
    var next := Advanced(root);
    assert forall i :: 0 <= i < |before| ==> before[i].rest != [];
    assert next.rest == [] ==> multiset(before)[next] == 0;
    forall k | 0 <= k < |after| && after[k].rest == []
      ensures k == 0 && after[0].failure.Some?
    {
      assert after[k] in multiset(after);
      assert after[k] == next;
      RootIsLeast(after, k);
      assert after[0] in multiset(after);
      assert after[0] == next;
      if k > 0 {
        OnlyOne(after, 0, k);
      }
    }
  }

  lemma OnlyOne<T>(s: seq<T>, i: nat, k: nat)
    requires i < k < |s| && s[i] == s[k]
    ensures multiset(s)[s[i]] >= 2
  {
    assert s == s[..i] + [s[i]] + s[i + 1..k] + [s[k]] + s[k + 1..];
  }

  lemma ReadAllDone(ms0: multiset<Stream>, out: seq<Tagged>, l: seq<Stream>)
    requires Merging(ms0, out, multiset(l)) && DistinctFiles(ms0) && Live(l)
    requires l == [] || l[0].rest == []
    ensures forall f :: Project(out, f) <= Left(ms0, f)
    ensures l == [] ==> forall f :: Project(out, f) == Left(ms0, f)
    ensures l == [] <==> !exists s :: s in ms0 && s.failure.Some?
    ensures l != [] ==> exists s :: s in ms0 && s.failure == l[0].failure && Project(out, s.file) == s.rest
  {
    forall f
      ensures Project(out, f) <= Left(ms0, f)
      ensures l == [] ==> Project(out, f) == Left(ms0, f)
    {
      assert Splits(ms0, out, multiset(l), f);
    }
    assert forall s :: s in ms0 && s.failure.Some? ==> (s.file, s.failure.value) in Failures(ms0);
    if l != [] {
      assert l[0] in multiset(l);
      assert (l[0].file, l[0].failure.value) in Failures(multiset(l));
      var s :| s in ms0 && s.failure.Some? && s.file == l[0].file && s.failure.value == l[0].failure.value;
      LeftOf(ms0, s);
      LeftOf(multiset(l), l[0]);
      assert Splits(ms0, out, multiset(l), s.file);
    }
  }

  function Tag(es: seq<Entry>, f: nat): seq<Tagged> {
    if es == [] then [] else Tag(es[..|es| - 1], f) + [Tagged(es[|es| - 1], f)]
  }

  lemma {:induction false} ProjectTag(out: seq<Tagged>, es: seq<Entry>, g: nat, f: nat)
    ensures Project(out + Tag(es, g), f) == if g == f then Project(out, f) + es else Project(out, f)
  {
    if es == [] {
      assert out + Tag(es, g) == out;
    } else {
      var n := |es| - 1;
      var tags, last := Tag(es[..n], g), Tagged(es[n], g);
      ProjectTag(out, es[..n], g, f);
      ConcatAssoc(out, tags, [last]);
      ProjectSnoc(out + tags, last, f);
      ConcatAssoc(Project(out, f), es[..n], [es[n]]);
      assert es == es[..n] + [es[n]];
    }
  }

  lemma {:induction false} CountInProjection(out: seq<Tagged>, x: Tagged)
    ensures multiset(out)[x] == multiset(Project(out, x.file))[x.entry]
  {
    if out != [] {
      var n := |out| - 1;
      CountInProjection(out[..n], x);
      assert out == out[..n] + [out[n]];
    }
  }

  /** All lists, one after the other, each entry attributed to the list it is from. */
  function Flatten(ws: seq<seq<Entry>>): seq<Tagged> {
    if ws == [] then [] else Flatten(ws[..|ws| - 1]) + Tag(ws[|ws| - 1], |ws| - 1)
  }

  lemma {:induction false} ProjectFlatten(ws: seq<seq<Entry>>, f: nat)
    ensures Project(Flatten(ws), f) == if f < |ws| then ws[f] else []
  {
    if ws != [] {
      var n := |ws| - 1;
      ProjectFlatten(ws[..n], f);
      ProjectTag(Flatten(ws[..n]), ws[n], n, f);
    }
  }

  /**
   * Merged entries that hold each file's list, in order, and nothing else, are a
   * permutation of all the lists, each entry still attributed to its file.
   */
  lemma ProjectionsGivePermutation(ws: seq<seq<Entry>>, out: seq<Tagged>)
    requires forall f :: 0 <= f < |ws| ==> Project(out, f) == ws[f]
    requires forall f :: f >= |ws| ==> Project(out, f) == []
    ensures multiset(out) == multiset(Flatten(ws))
  {
    forall x: Tagged
      ensures multiset(out)[x] == multiset(Flatten(ws))[x]
    {
      CountInProjection(out, x);
      CountInProjection(Flatten(ws), x);
      ProjectFlatten(ws, x.file);
    }
  }
}
