/** debug merge-logs from end to end: files, live streams, heap, and the goroutines that write. */
module MergeLogs {
  import opened Common
  import opened LogEntry
  import opened LogFile
  import opened HeapMerge
  import opened LogMerge
  import B = BufferedStream
  import FileStream
  import LiveMerge
  import LogPipeline

  /** The merged entries with the prefixes of their files, as they are sent to bufferWrites. */
  function Infos(out: seq<Tagged>, prefix: nat -> Bytes): seq<LogPipeline.EntryInfo> {
    seq(|out|, i requires 0 <= i < |out| => LogPipeline.EntryInfo(out[i].entry, prefix(out[i].file)))
  }

  /** Each merged entry goes with the prefix of the file it came from. */
  lemma InfosKeepPrefixes(out: seq<Tagged>, prefix: nat -> Bytes)
    ensures var eis := Infos(out, prefix);
            && |eis| == |out|
            && (forall i :: 0 <= i < |out| ==> eis[i].entry == out[i].entry)
            && (forall i :: 0 <= i < |out| ==> eis[i].prefix == prefix(out[i].file))
  {
  }

  /** Opening the files succeeded, and the heap over their live streams was read until nothing was left. */
  ghost predicate ReadToEnd(srcs: seq<Stream>, acts: seq<B.Action>, ts: seq<nat>, ls: seq<seq<nat>>) {
    && (forall i :: 0 <= i < |srcs| ==> !FailsAtOnce(srcs[i]))
    && LiveMerge.IsRead(srcs, acts, ts, ls)
    && LiveMerge.HeapAt(srcs, acts, ts[|ts| - 1], ls[|ts| - 1])
    && LiveMerge.NothingLeft(srcs, acts, ts[|ts| - 1], ls[|ts| - 1])
  }

  ghost function Merged(srcs: seq<Stream>, acts: seq<B.Action>, ts: seq<nat>, ls: seq<seq<nat>>): seq<Tagged>
    requires ReadToEnd(srcs, acts, ts, ls)
  {
    LiveMerge.Handed(srcs, acts, ts, ls, |ts| - 1)
  }

  ghost function MergeError(srcs: seq<Stream>, acts: seq<B.Action>, ts: seq<nat>, ls: seq<seq<nat>>): Option<Error>
    requires ReadToEnd(srcs, acts, ts, ls)
  {
    LiveMerge.ErrorRead(srcs, acts, ts[|ts| - 1], ls[|ts| - 1])
  }

  /** Over any files, what the live heap hands on is a merge of their streams. */
  lemma FilesAreMerged(files: seq<ValidFile>, from: Option<int>, to: Option<int>,
                       acts: seq<B.Action>, ts: seq<nat>, ls: seq<seq<nat>>)
    requires ReadToEnd(StreamsOf(files, from, to), acts, ts, ls)
    ensures var srcs := StreamsOf(files, from, to);
            IsMerge(Merged(srcs, acts, ts, ls), MergeError(srcs, acts, ts, ls), srcs)
  {
    StreamsAreSorted(files, from, to);
    LiveMerge.LiveReadIsMerge(StreamsOf(files, from, to), acts, ts, ls);
  }

  /**
   * Any files, any interleaving of the producers with the heap, and any
   * interleaving of the goroutines that write: once these have returned without
   * an error, no file's stream failed, and what was written is what the files'
   * entries, all of them and in time order, show.
   */
  lemma WritesTheMerge(files: seq<ValidFile>, from: Option<int>, to: Option<int>,
                       acts: seq<B.Action>, ts: seq<nat>, ls: seq<seq<nat>>,
                       c: LogPipeline.Config, prefix: nat -> Bytes,
                       sts: seq<LogPipeline.State>, steps: seq<LogPipeline.Action>, k: nat)
    requires ReadToEnd(StreamsOf(files, from, to), acts, ts, ls)
    requires var srcs := StreamsOf(files, from, to);
             LogPipeline.IsRun(c, Infos(Merged(srcs, acts, ts, ls), prefix), MergeError(srcs, acts, ts, ls), sts, steps)
    requires k <= |steps| && LogPipeline.AllDone(sts[k]) && sts[k].err.None?
    ensures var srcs := StreamsOf(files, from, to);
            var out := Merged(srcs, acts, ts, ls);
            && !SomeFails(srcs)
            && SortedByTime(Entries(out)) && multiset(out) == multiset(Flatten(Rests(srcs)))
            && sts[k].out == Concat(LogPipeline.KeptTexts(c, Infos(out, prefix)))
  {
    var srcs := StreamsOf(files, from, to);
    FilesAreMerged(files, from, to, acts, ts, ls);
    var input, err := Infos(Merged(srcs, acts, ts, ls), prefix), MergeError(srcs, acts, ts, ls);
    LogPipeline.CompleteOutput(c, input, err, sts, steps, k);
    LogPipeline.ShownAllIsKept(c, input);
  }

  /**
   * Readable files with ordered times that are safe to read in two passes: what
   * is written is what a permutation in time order of the entries in [from, to]
   * shows; without a failing rendering or write, nothing fails.
   */
  lemma WritesSortedFilter(files: seq<ValidFile>, from: Option<int>, to: Option<int>,
                           acts: seq<B.Action>, ts: seq<nat>, ls: seq<seq<nat>>,
                           c: LogPipeline.Config, prefix: nat -> Bytes,
                           sts: seq<LogPipeline.State>, steps: seq<LogPipeline.Action>, k: nat)
    requires forall f :: f in files ==> FileStream.Readable(f) && SortedByTime(f.entries)
    requires forall f :: f in files ==> FileStream.FilterSafe(EntriesFromSeek(f, from), to)
    requires ReadToEnd(StreamsOf(files, from, to), acts, ts, ls)
    requires var srcs := StreamsOf(files, from, to);
             LogPipeline.IsRun(c, Infos(Merged(srcs, acts, ts, ls), prefix), MergeError(srcs, acts, ts, ls), sts, steps)
    requires k <= |steps| && LogPipeline.AllDone(sts[k])
    requires var out := Merged(StreamsOf(files, from, to), acts, ts, ls);
             forall ei :: ei in Infos(out, prefix) ==> !LogPipeline.RenderFails(c, ei)
    requires forall i :: 0 <= i < k ==> !steps[i].WriteFails?
    ensures var out := Merged(StreamsOf(files, from, to), acts, ts, ls);
            && SortedByTime(Entries(out)) && multiset(out) == multiset(Flatten(Withins(files, from, to)))
            && sts[k].err.None? && sts[k].out == Concat(LogPipeline.KeptTexts(c, Infos(out, prefix)))
  {
    var srcs := StreamsOf(files, from, to);
    FilesAreMerged(files, from, to, acts, ts, ls);
    OrderlyYields(files, from, to);
    var input, err := Infos(Merged(srcs, acts, ts, ls), prefix), MergeError(srcs, acts, ts, ls);
    LogPipeline.ErrorHasCause(c, input, err, sts, steps, k);
    WritesTheMerge(files, from, to, acts, ts, ls, c, prefix, sts, steps, k);
  }
}
