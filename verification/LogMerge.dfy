/** Merging a set of log files: the pieces put together. */
module LogMerge {
  import opened Common
  import opened LogEntry
  import opened LogFile
  import opened HeapMerge
  import BufferedStream
  import FileStream

  /** Each file as a stream: what it yields and how it fails, if it does. */
  function StreamsOf(files: seq<ValidFile>, from: Option<int>, to: Option<int>): seq<Stream> {
    seq(|files|, i requires 0 <= i < |files| => StreamOf(files[i], i, from, to))
  }

  function StreamOf(f: ValidFile, i: nat, from: Option<int>, to: Option<int>): Stream {
    Stream(i, FileStream.Yield(f, from, to), FileStream.AsFailure(FileStream.StreamEnd(f, from, to)))
  }

  /** One file's stream as its consumer will see it; no stream when it yields nothing, or an error. */
  method OpenStream(f: ValidFile, i: nat, from: Option<int>, to: Option<int>)
    returns (s: Option<Stream>, err: Option<Error>)
    ensures var all := StreamOf(f, i, from, to);
            if all.rest == [] then s == None && err == all.failure else s == Some(all) && err == None
  {
    var stream, e := FileStream.NewFileLogStream(f, from, to);
    if stream == null {
      return None, e;
    }
    var entries, ending := FileStream.Drain(stream);
    return Some(Stream(i, entries, FileStream.AsFailure(ending))), None;
  }

  /** The file fails before it yields anything. */
  predicate FailsAtOnce(s: Stream) {
    s.rest == [] && s.failure.Some?
  }

  /** Opening all files; a file that holds nothing in range stands for the missing stream. */
  method OpenAll(files: seq<ValidFile>, from: Option<int>, to: Option<int>)
    returns (srcs: seq<Stream>, err: Option<Error>)
    ensures var all := StreamsOf(files, from, to);
            if err.None? then srcs == all && forall i :: 0 <= i < |all| ==> !FailsAtOnce(all[i])
            else exists i :: 0 <= i < |all| && FailsAtOnce(all[i]) && all[i].failure == err
  {
    ghost var all := StreamsOf(files, from, to);
    srcs := [];
    var i := 0;
    while i < |files|
      invariant 0 <= i <= |files| && srcs == all[..i]
      invariant forall k :: 0 <= k < i ==> !FailsAtOnce(all[k])
    {
      var s, e := OpenStream(files[i], i, from, to);
      if e.Some? {
        assert FailsAtOnce(all[i]);
        return [], e;
      }
      srcs := srcs + [if s.Some? then s.value else Stream(i, [], None)];
      i := i + 1;
    }
    return srcs, None;
  }

  /** A heap element is the stream of one of the files, and not exhausted. */
  ghost predicate StreamIn(s: Stream, all: seq<Stream>) {
    s.file < |all| && s == all[s.file] && s.rest != []
  }

  ghost predicate HasStream(res: seq<Stream>, f: nat) {
    exists k :: 0 <= k < |res| && res[k].file == f
  }

  /** The streams of the first i files, in file order. */
  ghost predicate Gathered(res: seq<Stream>, all: seq<Stream>, i: nat)
    requires i <= |all|
  {
    && (forall k :: 0 <= k < |res| ==> res[k].file < i && StreamIn(res[k], all))
    && (forall j, k :: 0 <= j < k < |res| ==> res[j].file < res[k].file)
    && (forall f {:trigger HasStream(res, f)} :: 0 <= f < i && all[f].rest != [] ==> HasStream(res, f))
  }

  lemma HasStreamSnoc(res: seq<Stream>, s: Stream, f: nat)
    ensures HasStream(res + [s], f) <==> HasStream(res, f) || s.file == f
  {
    var res' := res + [s];
    if HasStream(res, f) {
      var k :| 0 <= k < |res| && res[k].file == f;
      assert res'[k].file == f;
    }
    assert res'[|res|] == s;
  }

  lemma GatherOne(res: seq<Stream>, all: seq<Stream>, i: nat)
    requires i < |all| && all[i].file == i && Gathered(res, all, i)
    ensures Gathered(if all[i].rest != [] then res + [all[i]] else res, all, i + 1)
  {
    forall f | 0 <= f < i + 1 && all[f].rest != [] && all[i].rest != []
      ensures HasStream(res + [all[i]], f)
    {
      HasStreamSnoc(res, all[i], f);
    }
  }

  /** Streams numbered by their file. */
  ghost predicate Numbered(all: seq<Stream>) {
    forall i :: 0 <= i < |all| ==> all[i].file == i
  }

  /** The end of newMergedStream: missing streams are dropped, the others put in heap order. */
  method NewHeap(all: seq<Stream>) returns (m: Merged)
    requires Numbered(all)
    ensures fresh(m) && HeapOrdered(m.l) && Live(m.l) && DistinctFiles(multiset(m.l))
    ensures Holding(multiset(m.l), all)
  {
    var res: seq<Stream> := [];
    var i := 0;
    while i < |all|
      invariant 0 <= i <= |all|
      invariant Gathered(res, all, i)
    {
      GatherOne(res, all, i);
      if all[i].rest != [] {
        res := res + [all[i]];
      }
      i := i + 1;
    }
    m := new Merged(res);
    StreamsHold(all, res, m.l);
  }

  /** The heap holds every file's stream that yields something, and nothing else. */
  ghost predicate Holding(ms: multiset<Stream>, all: seq<Stream>) {
    && (forall s :: s in ms ==> StreamIn(s, all))
    && (forall i :: 0 <= i < |all| && all[i].rest != [] ==> all[i] in ms)
    && (forall i :: 0 <= i < |all| ==> Left(ms, i) == all[i].rest)
  }

  lemma CountsOnce<T>(s: seq<T>, k: nat)
    requires k < |s| && forall j :: 0 <= j < |s| && j != k ==> s[j] != s[k]
    ensures multiset(s)[s[k]] == 1
  {
    assert s == s[..k] + [s[k]] + s[k + 1..];
    assert s[k] !in s[..k] && s[k] !in s[k + 1..];
  }

  lemma GatheredIsDistinct(all: seq<Stream>, res: seq<Stream>)
    requires Gathered(res, all, |all|)
    ensures DistinctFiles(multiset(res))
    ensures forall s :: s in multiset(res) ==> StreamIn(s, all)
  {
    forall s | s in multiset(res)
      ensures StreamIn(s, all) && multiset(res)[s] == 1
    {
      var k :| 0 <= k < |res| && res[k] == s;
      CountsOnce(res, k);
    }
  }

  lemma GatheredHolds(all: seq<Stream>, res: seq<Stream>, i: nat)
    requires Gathered(res, all, |all|) && DistinctFiles(multiset(res)) && i < |all|
    ensures Left(multiset(res), i) == all[i].rest
    ensures all[i].rest != [] ==> all[i] in multiset(res)
  {
    if HasStream(res, i) {
      var k :| 0 <= k < |res| && res[k].file == i;
      assert res[k] in multiset(res);
      LeftOf(multiset(res), res[k]);
    } else {
      assert !HasFile(multiset(res), i);
    }
  }

  lemma StreamsHold(all: seq<Stream>, res: seq<Stream>, l: seq<Stream>)
    requires multiset(l) == multiset(res)
    requires Gathered(res, all, |all|)
    ensures DistinctFiles(multiset(l)) && Live(l)
    ensures Holding(multiset(l), all)
  {
    GatheredIsDistinct(all, res);
    forall k | 0 <= k < |l|
      ensures l[k].rest != []
    {
      assert l[k] in multiset(l);
    }
    forall i | 0 <= i < |all|
      ensures Left(multiset(l), i) == all[i].rest
      ensures all[i].rest != [] ==> all[i] in multiset(l)
    {
      GatheredHolds(all, res, i);
    }
  }

  lemma NoOtherFiles(ms: multiset<Stream>, all: seq<Stream>, out: seq<Tagged>)
    requires Holding(ms, all)
    requires forall i :: Project(out, i) <= Left(ms, i)
    ensures forall i :: 0 <= i < |all| ==> Project(out, i) <= all[i].rest
    ensures forall i :: i >= |all| ==> Project(out, i) == []
  {
    forall i | i >= |all|
      ensures !HasFile(ms, i)
    {
      assert forall s :: s in ms ==> StreamIn(s, all);
    }
  }

  function Rests(all: seq<Stream>): seq<seq<Entry>> {
    seq(|all|, i requires 0 <= i < |all| => all[i].rest)
  }

  ghost predicate SomeFails(all: seq<Stream>) {
    exists i :: 0 <= i < |all| && all[i].failure.Some?
  }

  /** The error is that of a stream which was read to its end. */
  ghost predicate ReadToFailure(out: seq<Tagged>, err: Option<Error>, all: seq<Stream>) {
    exists i :: 0 <= i < |all| && all[i].failure == err && Project(out, i) == all[i].rest
  }

  /**
   * What reading the merged streams gives: entries in time order that hold of
   * each file a prefix of what it yields, in order. An error comes exactly when a
   * stream fails, and is that of a stream read to its end; without one the
   * entries are a permutation of all that the streams yield.
   */
  ghost predicate IsMerge(out: seq<Tagged>, err: Option<Error>, all: seq<Stream>) {
    && SortedByTime(Entries(out))
    && (forall i :: 0 <= i < |all| ==> Project(out, i) <= all[i].rest)
    && (err.None? ==> forall i :: 0 <= i < |all| ==> Project(out, i) == all[i].rest)
    && (err.None? ==> multiset(out) == multiset(Flatten(Rests(all))))
    && (err.Some? <==> SomeFails(all))
    && (err.Some? ==> ReadToFailure(out, err, all))
  }

  lemma FailuresInHeap(ms: multiset<Stream>, all: seq<Stream>)
    requires Holding(ms, all) && forall i :: 0 <= i < |all| ==> !FailsAtOnce(all[i])
    ensures (exists s :: s in ms && s.failure.Some?) <==> SomeFails(all)
  {
    if i :| 0 <= i < |all| && all[i].failure.Some? {
      assert all[i] in ms;
    }
  }

  lemma ReadIsMerge(ms: multiset<Stream>, all: seq<Stream>, out: seq<Tagged>, err: Option<Error>)
    requires Holding(ms, all) && forall i :: 0 <= i < |all| ==> !FailsAtOnce(all[i])
    requires SortedByTime(Entries(out))
    requires forall i :: Project(out, i) <= Left(ms, i)
    requires err.None? ==> forall i :: Project(out, i) == Left(ms, i)
    requires err.Some? <==> exists s :: s in ms && s.failure.Some?
    requires err.Some? ==> exists s :: s in ms && s.failure == err && Project(out, s.file) == s.rest
    ensures IsMerge(out, err, all)
  {
    NoOtherFiles(ms, all, out);
    FailuresInHeap(ms, all);
    if err.None? {
      ProjectionsGivePermutation(Rests(all), out);
    } else {
      var s :| s in ms && s.failure == err && Project(out, s.file) == s.rest;
      assert StreamIn(s, all);
    }
  }

  /** Reading a heap that holds the streams of all files to its end. */
  method ReadHeap(m: Merged, ghost all: seq<Stream>) returns (out: seq<Tagged>, err: Option<Error>)
    requires HeapOrdered(m.l) && Live(m.l) && DistinctFiles(multiset(m.l)) && Holding(multiset(m.l), all)
    requires forall i :: 0 <= i < |all| ==> SortedByTime(all[i].rest) && !FailsAtOnce(all[i])
    modifies m
    ensures IsMerge(out, err, all)
  {
    ghost var ms := multiset(m.l);
    assert forall s :: s in ms ==> StreamIn(s, all);
    out, err := m.ReadAll();
    ReadIsMerge(ms, all, out, err);
  }

  /**
   * A merge of what is seen of the streams is a merge of the streams themselves:
   * streams are only cut short when another one fails and is seen whole, and then
   * an error is reported.
   */
  lemma FairMerge(out: seq<Tagged>, err: Option<Error>, srcs: seq<Stream>, obs: seq<Stream>)
    requires BufferedStream.Fair(srcs, obs) && IsMerge(out, err, obs)
    ensures IsMerge(out, err, srcs)
  {
    if err.None? {
      assert forall i :: 0 <= i < |srcs| ==> obs[i] == srcs[i];
      assert obs == srcs;
    } else {
      var i :| 0 <= i < |obs| && obs[i].failure == err && Project(out, i) == obs[i].rest;
      assert obs[i] == srcs[i];
      forall k | 0 <= k < |srcs|
        ensures Project(out, k) <= srcs[k].rest
      {
        assert Project(out, k) <= obs[k].rest <= srcs[k].rest;
      }
    }
  }

  lemma FairKeepsStreams(srcs: seq<Stream>, obs: seq<Stream>)
    requires BufferedStream.Fair(srcs, obs) && Numbered(srcs)
    requires forall i :: 0 <= i < |srcs| ==> SortedByTime(srcs[i].rest) && !FailsAtOnce(srcs[i])
    ensures Numbered(obs)
    ensures forall i :: 0 <= i < |obs| ==> SortedByTime(obs[i].rest) && !FailsAtOnce(obs[i])
  {
    forall i | 0 <= i < |obs|
      ensures SortedByTime(obs[i].rest)
    {
      assert obs[i].rest <= srcs[i].rest;
      assert forall k :: 0 <= k < |obs[i].rest| ==> obs[i].rest[k] == srcs[i].rest[k];
    }
  }

  /**
   * The whole chain over any files and under any schedule of the consumer, the
   * producers and the cancellation. The heap works on the streams as they are
   * observed in the end, which is how they answer all along (LooksFixed).
   */
  method MergeFiles(files: seq<ValidFile>, from: Option<int>, to: Option<int>, schedule: seq<BufferedStream.Action>)
    returns (out: seq<Tagged>, err: Option<Error>)
    ensures IsMerge(out, err, StreamsOf(files, from, to))
  {
    ghost var all := StreamsOf(files, from, to);
    StreamsAreSorted(files, from, to);
    var srcs;
    srcs, err := OpenAll(files, from, to);
    if err.Some? {
      return [], err;
    }
    var obs := BufferedStream.Observe(srcs, schedule);
    BufferedStream.ObserveIsFair(srcs, schedule);
    FairKeepsStreams(srcs, obs);
    var m := NewHeap(obs);
    out, err := ReadHeap(m, obs);
    FairMerge(out, err, srcs, obs);
  }

  /** The source's Less on the answers two live streams give. */
  predicate LiveLess(a: BufferedStream.Buffered, b: BufferedStream.Buffered) {
    if a.ok && b.ok then a.e.time < b.e.time else !a.ok && b.ok
  }

  /** What is left of the stream observed in the end once n entries were popped. */
  function Remaining(s: Stream, n: nat): Stream {
    s.(rest := if n <= |s.rest| then s.rest[n..] else [])
  }

  /**
   * At every moment of every run the heap compares live streams as it compares
   * what is left of the streams observed in the end.
   */
  lemma LessLooksFixed(srcs: seq<Stream>, acts: seq<BufferedStream.Action>, t: nat, i: nat, j: nat)
    requires t <= |acts| && i < |srcs| && j < |srcs|
    requires !BufferedStream.Waiting(BufferedStream.After(srcs, acts[..t]).streams[i])
    requires !BufferedStream.Waiting(BufferedStream.After(srcs, acts[..t]).streams[j])
    ensures var live, obs := BufferedStream.After(srcs, acts[..t]).streams, BufferedStream.Observe(srcs, acts);
            LiveLess(live[i], live[j]) <==>
            Less(Remaining(obs[i], |live[i].delivered|), Remaining(obs[j], |live[j].delivered|))
  {
    BufferedStream.LooksFixed(srcs, acts, t, i);
    BufferedStream.LooksFixed(srcs, acts, t, j);
  }

  lemma OneEntryFile(f: ValidFile, entry: Entry)
    requires entry.time > 0 && f == File(1, [0], [entry], Failure("disk"), (None, None))
    ensures StreamOf(f, 0, None, None) == Stream(0, [entry], Some(Failure("disk")))
  {
    assert EntriesFromSeek(f, None) == [entry];
    assert [entry][1..] == [];
    assert FileStream.Deliver([entry], 0, None, None) == [entry];
  }

  /**
   * A file with one entry that then fails to decode: the merged stream shows the
   * entry to peek, and pop denies it.
   */
  method PeekedEntryIsDenied() returns (peeked: Option<Entry>, popped: Entry, ok: bool)
    ensures peeked == Some(Entry(5, "", "x")) && !ok && popped == ZERO
  {
    var entry := Entry(5, "", "x");
    var f := File(1, [0], [entry], Failure("disk"), (None, None));
    OneEntryFile(f, entry);
    var s, err := OpenStream(f, 0, None, None);
    var m := NewHeap([s.value]);
    assert [s.value][0] in multiset(m.l);
    assert m.l[0] in multiset(m.l);
    peeked := m.Peek();
    popped, ok := m.Pop();
  }

  lemma StreamsAreSorted(files: seq<ValidFile>, from: Option<int>, to: Option<int>)
    ensures Numbered(StreamsOf(files, from, to))
    ensures forall i :: 0 <= i < |files| ==> SortedByTime(StreamsOf(files, from, to)[i].rest)
  {
    forall i | 0 <= i < |files|
      ensures SortedByTime(StreamsOf(files, from, to)[i].rest)
    {
      FileStream.YieldIsSorted(files[i], from, to);
    }
  }

  /** The in-range entries of each file. */
  function Withins(files: seq<ValidFile>, from: Option<int>, to: Option<int>): seq<seq<Entry>> {
    seq(|files|, i requires 0 <= i < |files| => FileStream.Within(files[i].entries, from, to))
  }

  /**
   * Over readable files with ordered times no stream fails, and the streams yield
   * exactly the entries in [from, to], if and only if each file is safe to read
   * in two passes: merging is then a filter and a sort.
   */
  lemma OrderlyYields(files: seq<ValidFile>, from: Option<int>, to: Option<int>)
    requires forall f :: f in files ==> FileStream.Readable(f) && SortedByTime(f.entries)
    ensures !SomeFails(StreamsOf(files, from, to))
    ensures Rests(StreamsOf(files, from, to)) == Withins(files, from, to) <==>
            forall f :: f in files ==> FileStream.FilterSafe(EntriesFromSeek(f, from), to)
  {
    var rests, withins := Rests(StreamsOf(files, from, to)), Withins(files, from, to);
    forall i | 0 <= i < |files|
      ensures StreamsOf(files, from, to)[i].failure.None?
      ensures rests[i] == withins[i] <==> FileStream.FilterSafe(EntriesFromSeek(files[i], from), to)
    {
      assert files[i] in files;
      FileStream.SortedFileIsFiltered(files[i], from, to);
      FileStream.StreamEndIsTail(files[i], from, to);
    }
  }
}
