/**
 * A stream of entries from one file. The constructor peeks at the first entry
 * and closes the file; the first read after that reopens it, seeks again, and
 * skips the entry that was already peeked.
 */
module FileStream {
  import opened Common
  import opened LogEntry
  import opened LogFile

  predicate AfterTo(t: int, to: Option<int>) {
    to.Some? && t > to.value
  }

  predicate BeforeFrom(t: int, from: Option<int>) {
    from.Some? && t < from.value
  }

  /** One uninterrupted pass over decoded entries: ratchet times up, stop after `to`, skip before `from`. */
  function Deliver(raw: seq<Entry>, prev: int, from: Option<int>, to: Option<int>): seq<Entry> {
    if raw == [] then []
    else
      var t := Max(prev, raw[0].time);
      if AfterTo(t, to) then []
      else (if BeforeFrom(t, from) then [] else [raw[0].(time := t)]) + Deliver(raw[1..], t, from, to)
  }

  /** The error such a pass ends with. */
  function Ending(raw: seq<Entry>, prev: int, to: Option<int>, tail: Error): Error {
    if raw == [] then tail
    else
      var t := Max(prev, raw[0].time);
      if AfterTo(t, to) then EOF else Ending(raw[1..], t, to, tail)
  }

  /** Upon opening, an entry equal to the one held is taken for the one already peeked. */
  function SkipHeld(raw: seq<Entry>, held: Entry): seq<Entry> {
    if raw != [] && raw[0] == held then raw[1..] else raw
  }

  class FileLogStream {
    const file: File
    const from: Option<int>
    const to: Option<int>
    var prevTime: int
    var pos: Option<nat>     // the open decoder's next entry; None when closed
    var opens: nat           // how often the file was opened
    var read: bool
    var e: Entry
    var err: Option<Error>

    ghost predicate Valid()
      reads this
    {
      && file.Valid()
      && (pos.Some? ==> pos.value <= |file.entries|)
      && (read ==> err.None? && e.time == prevTime)
      && (pos.Some? || read || e != ZERO ==> opens > 0)
      && (err.Some? ==> e == ZERO || err == file.faults.1)
      && (pos.None? && SeekResult(file, from).Missing? ==> e == ZERO && !read)
    }

    /** The error the next opening gives, if any. */
    function Fault(): Option<Error>
      reads this
    {
      if opens == 0 then file.faults.0 else file.faults.1
    }

    /** The stream is closed and cannot be opened. */
    predicate Blocked()
      reads this
    {
      pos.None? && Fault().Some?
    }

    /** Decoded entries the stream has yet to look at. */
    ghost function Upcoming(): seq<Entry>
      reads this
      requires Valid()
    {
      if pos.Some? then file.entries[pos.value..] else SkipHeld(EntriesFromSeek(file, from), e)
    }

    /** Everything later pops will yield. */
    ghost function Pending(): seq<Entry>
      reads this
      requires Valid()
    {
      if err.Some? then []
      else (if read then [e] else []) + if Blocked() then [] else Deliver(Upcoming(), prevTime, from, to)
    }

    /** The error the stream will end with. */
    ghost function End(): Error
      reads this
      requires Valid()
    {
      if err.Some? then err.value
      else if Blocked() then Fault().value
      else if pos.None? && SeekResult(file, from).Missing? then SeekResult(file, from).error
      else Ending(Upcoming(), prevTime, to, file.tail)
    }

    constructor (file: File, from: Option<int>, to: Option<int>)
      requires file.Valid()
      ensures this.file == file && this.from == from && this.to == to
      ensures Valid() && pos.None? && opens == 0 && !read && err.None? && e == ZERO && prevTime == 0
    {
      this.file, this.from, this.to := file, from, to;
      prevTime, pos, opens, read, e, err := 0, None, 0, false, ZERO, None;
    }

    method Close()
      modifies this
      ensures pos.None?
      ensures prevTime == old(prevTime) && read == old(read) && e == old(e) && err == old(err) && opens == old(opens)
    {
      pos := None;
    }

    method Open() returns (ok: bool)
      requires Valid() && pos.None? && err.None? && !read
      modifies this
      ensures prevTime == old(prevTime) && read == old(read) && e == old(e) && opens == old(opens) + 1
      ensures old(Fault()).Some? ==> !ok && err == old(Fault()) && pos.None?
      ensures old(Fault()).None? ==>
                match SeekResult(file, from)
                case Found(o) => ok && err.None? && pos == Some(IndexFrom(file.starts, o))
                case Missing(x) => !ok && err == Some(x) && pos.None?
    {
      err := Fault();
      opens := opens + 1;
      if err.Some? {
        return false;
      }
      var r := SeekToFirstAfterFrom(file, from);
      match r
      case Found(o) => pos, ok := Some(IndexFrom(file.starts, o)), true;
      case Missing(x) => err, ok := Some(x), false;
    }

    /** One decode: skip the held entry after a reopen, or ratchet and keep, skip or stop. */
    method DecodeNext(justOpened: bool)
      requires Valid() && pos.Some? && !read && err.None?
      modifies this
      ensures Valid()
      ensures
        var next := if justOpened then SkipHeld(old(Upcoming()), old(e)) else old(Upcoming());
        && Pending() == Deliver(next, old(prevTime), from, to)
        && End() == Ending(next, old(prevTime), to, file.tail)
      ensures read || err.Some? || (pos.Some? && pos.value == old(pos).value + 1)
    {
      if pos.value == |file.entries| {
        err := Some(file.tail);
        Close();
        e := ZERO;
        return;
      }
      var d := file.entries[pos.value];
      pos := Some(pos.value + 1);
      assert old(Upcoming()) == [d] + Upcoming();
      if justOpened && d == e {
        return;
      }
      e := d;
      if e.time < prevTime {
        e := e.(time := prevTime);
      } else {
        prevTime := e.time;
      }
      if to.Some? && e.time > to.value {
        Close();
        e := ZERO;
        err := Some(EOF);
      } else {
        read := !(from.Some? && e.time < from.value);
      }
    }

    /** One round of peek's loop: open the file if it is closed, then decode. */
    method LookAhead() returns (ok: bool)
      requires Valid() && !read && err.None?
      modifies this
      ensures Valid()
      ensures Pending() == old(Pending()) && End() == old(End())
      ensures !ok ==> err.Some?
      ensures ok ==> read || err.Some? || (pos.Some? && (old(pos).Some? ==> pos.value == old(pos).value + 1))
    {
      var justOpened := false;
      if pos.None? {
        ok := Open();
        if !ok {
          return;
        }
        justOpened := true;
        assert Upcoming() == EntriesFromSeek(file, from);
      }
      DecodeNext(justOpened);
      ok := true;
    }

    method Peek() returns (entry: Entry, ok: bool)
      requires Valid()
      modifies this
      ensures Valid()
      ensures Pending() == old(Pending()) && End() == old(End())
      ensures ok <==> Pending() != []
      ensures ok ==> entry == Pending()[0] == e && read
      ensures !ok ==> err == Some(End()) && (entry == ZERO || err == file.faults.1)
    {
      while !read && err.None?
        invariant Valid()
        invariant Pending() == old(Pending()) && End() == old(End())
        decreases !read && err.None?, pos.None?, if pos.Some? then |file.entries| - pos.value else 0
      {
        ok := LookAhead();
        if !ok {
          return ZERO, false;
        }
      }
      return e, err.None?;
    }

    method Pop() returns (entry: Entry, ok: bool)
      requires Valid()
      modifies this
      ensures Valid()
      ensures End() == old(End())
      ensures ok <==> old(Pending()) != []
      ensures ok ==> entry == old(Pending())[0] && Pending() == old(Pending())[1..]
      ensures !ok ==> Pending() == [] && err == Some(End())
    {
      entry, ok := Peek();
      if !ok {
        return;
      }
      read := false;
    }
  }

  /** What the two openings of a file deliver together, given what decodes from the seek point. */
  function TwoPasses(raw: seq<Entry>, from: Option<int>, to: Option<int>): seq<Entry> {
    var first := Deliver(SkipHeld(raw, ZERO), 0, from, to);
    if first == [] then []
    else [first[0]] + Deliver(SkipHeld(raw, first[0]), first[0].time, from, to)
  }

  function FirstEnding(file: File, from: Option<int>, to: Option<int>): Error
    requires file.Valid()
  {
    match SeekResult(file, from)
    case Missing(x) => x
    case Found(_) => Ending(SkipHeld(EntriesFromSeek(file, from), ZERO), 0, to, file.tail)
  }

  /** What a file's stream yields: nothing, only the first entry, or both passes, as opening the file succeeds. */
  function Yield(file: File, from: Option<int>, to: Option<int>): seq<Entry>
    requires file.Valid()
  {
    var both := TwoPasses(EntriesFromSeek(file, from), from, to);
    if file.faults.0.Some? || both == [] then []
    else if file.faults.1.Some? then [both[0]]
    else both
  }

  /** The error a file's stream ends with, whether or not it yields something first. */
  function StreamEnd(file: File, from: Option<int>, to: Option<int>): Error
    requires file.Valid()
  {
    var raw := EntriesFromSeek(file, from);
    var first := Deliver(SkipHeld(raw, ZERO), 0, from, to);
    if file.faults.0.Some? then file.faults.0.value
    else if first == [] then FirstEnding(file, from, to)
    else if file.faults.1.Some? then file.faults.1.value
    else Ending(SkipHeld(raw, first[0]), first[0].time, to, file.tail)
  }

  /** A stream's error as its consumers report it: io.EOF is no failure. */
  function AsFailure(e: Error): Option<Error> {
    if e == EOF then None else Some(e)
  }

  /** newFileLogStream: no stream when the file holds nothing to read, or the error of the first peek. */
  method NewFileLogStream(file: File, from: Option<int>, to: Option<int>)
    returns (s: FileLogStream?, err: Option<Error>)
    requires file.Valid()
    ensures s != null ==> fresh(s) && s.Valid() && err.None?
    ensures s != null ==> s.Pending() == Yield(file, from, to) != []
    ensures s != null ==> s.End() == StreamEnd(file, from, to)
    ensures s != null ==> s.pos.None? && s.file == file && s.from == from && s.to == to
    ensures s == null ==> Yield(file, from, to) == []
    ensures s == null ==> err == AsFailure(StreamEnd(file, from, to))
  {
    var opening := new FileLogStream(file, from, to);
    var e, ok := opening.Peek();
    if !ok {
      if opening.err == Some(EOF) {
        return null, None;
      }
      return null, opening.err;
    }
    opening.Close();
    return opening, None;
  }

  /** Some entry's raised time is after `to`. */
  ghost predicate Passes(raw: seq<Entry>, prev: int, to: Option<int>) {
    exists k :: 0 <= k < |raw| && AfterTo(Max(prev, raw[k].time), to)
  }

  lemma {:induction false} EndingIsTail(raw: seq<Entry>, prev: int, to: Option<int>, tail: Error)
    ensures Ending(raw, prev, to, tail) == if Passes(raw, prev, to) then EOF else tail
  {
    if raw != [] {
      var t := Max(prev, raw[0].time);
      if !AfterTo(t, to) {
        EndingIsTail(raw[1..], t, to, tail);
        assert forall k :: 0 < k < |raw| ==> raw[k] == raw[1..][k - 1];
      }
    }
  }

  /** Neither the entry skipped nor the time reached decides whether an entry after `to` comes. */
  lemma SkippedDoesNotPass(raw: seq<Entry>, held: Entry, prev: int, to: Option<int>)
    requires !AfterTo(held.time, to) && !AfterTo(prev, to)
    ensures Passes(SkipHeld(raw, held), prev, to) <==> exists k :: 0 <= k < |raw| && AfterTo(raw[k].time, to)
  {
    var rest := SkipHeld(raw, held);
    var d := |raw| - |rest|;
    assert forall x: int :: AfterTo(Max(prev, x), to) <==> AfterTo(x, to);
    if k :| 0 <= k < |rest| && AfterTo(Max(prev, rest[k].time), to) {
      assert raw[k + d] == rest[k];
    }
    if k :| 0 <= k < |raw| && AfterTo(raw[k].time, to) {
      assert k >= d && rest[k - d] == raw[k];
    }
  }

  /**
   * A stream ends with the error of the opening that failed, or else with the
   * error its file ends with, unless an entry after `to` ends it before.
   */
  lemma StreamEndIsTail(file: File, from: Option<int>, to: Option<int>)
    requires file.Valid()
    ensures var raw := SkipHeld(EntriesFromSeek(file, from), ZERO);
            StreamEnd(file, from, to) ==
            if file.faults.0.Some? then file.faults.0.value
            else if Yield(file, from, to) != [] && file.faults.1.Some? then file.faults.1.value
            else if Passes(raw, 0, to) then EOF
            else file.tail
  {
    var raw := EntriesFromSeek(file, from);
    var first := Deliver(SkipHeld(raw, ZERO), 0, from, to);
    EndingIsTail(SkipHeld(raw, ZERO), 0, to, file.tail);
    if first != [] {
      DeliverIsSorted(SkipHeld(raw, ZERO), 0, from, to);
      EndingIsTail(SkipHeld(raw, first[0]), first[0].time, to, file.tail);
      SkippedDoesNotPass(raw, ZERO, 0, to);
      SkippedDoesNotPass(raw, first[0], first[0].time, to);
    } else if from.Some? {
      SeekStartsAtBoundary(file, from.value);
    }
  }

  /** What a consumer that pops until the stream ends receives. */
  method Drain(s: FileLogStream) returns (out: seq<Entry>, err: Error)
    requires s.Valid()
    modifies s
    ensures s.Valid()
    ensures out == old(s.Pending()) && err == old(s.End())
  {
    ghost var whole, end := s.Pending(), s.End();
    out := [];
    var ok := true;
    while ok
      invariant s.Valid() && s.End() == end
      invariant out + s.Pending() == whole
      invariant !ok ==> s.Pending() == [] && s.err == Some(s.End())
      decreases ok, |s.Pending()|
    {
      ghost var left := s.Pending();
      var e;
      e, ok := s.Pop();
      if ok {
        Advance(out, left, e, s.Pending());
        out := out + [e];
      }
    }
    err := s.err.value;
  }

  lemma Advance<T>(out: seq<T>, left: seq<T>, e: T, later: seq<T>)
    requires left != [] && left[0] == e && left[1..] == later
    ensures (out + [e]) + later == out + left
  {
    assert left == [e] + later;
  }

  /** The largest time seen up to entry k, starting from prev. */
  function RunningMax(prev: int, raw: seq<Entry>, k: nat): int
    requires k < |raw|
  {
    Max(if k == 0 then prev else RunningMax(prev, raw, k - 1), raw[k].time)
  }

  lemma {:induction false} RunningMaxShift(prev: int, raw: seq<Entry>, k: nat)
    requires 0 < k < |raw|
    ensures RunningMax(prev, raw, k) == RunningMax(Max(prev, raw[0].time), raw[1..], k - 1)
  {
    if k > 1 {
      RunningMaxShift(prev, raw, k - 1);
    }
  }

  /**
   * Each entry delivered is the decoded entry of the same position with its time
   * raised to the running maximum, and delivery stops exactly at the first entry
   * whose raised time is after `to`.
   */
  lemma {:induction false} DeliverIsRunningMax(raw: seq<Entry>, prev: int, from: Option<int>, to: Option<int>)
    requires raw != [] ==> !BeforeFrom(Max(prev, raw[0].time), from)
    ensures var d := Deliver(raw, prev, from, to);
            && |d| <= |raw|
            && (forall k :: 0 <= k < |d| ==> d[k] == raw[k].(time := RunningMax(prev, raw, k)))
            && (forall k :: 0 <= k < |d| ==> !AfterTo(d[k].time, to))
            && (|d| < |raw| ==> AfterTo(RunningMax(prev, raw, |d|), to))
  {
    if raw != [] {
      var t := Max(prev, raw[0].time);
      if !AfterTo(t, to) {
        var rest := raw[1..];
        DeliverIsRunningMax(rest, t, from, to);
        var d := Deliver(raw, prev, from, to);
        assert d == [raw[0].(time := t)] + Deliver(rest, t, from, to);
        forall k | 0 < k < |raw|
          ensures RunningMax(prev, raw, k) == RunningMax(t, rest, k - 1)
        {
          RunningMaxShift(prev, raw, k);
        }
      }
    }
  }

  /** Delivered times never go down and are in range. */
  lemma {:induction false} DeliverIsSorted(raw: seq<Entry>, prev: int, from: Option<int>, to: Option<int>)
    ensures SortedByTime(Deliver(raw, prev, from, to))
    ensures forall x :: x in Deliver(raw, prev, from, to) ==>
              x.time >= prev && !BeforeFrom(x.time, from) && !AfterTo(x.time, to)
  {
    if raw != [] {
      DeliverIsSorted(raw[1..], Max(prev, raw[0].time), from, to);
    }
  }

  predicate InRange(t: int, from: Option<int>, to: Option<int>) {
    (from.Some? ==> from.value <= t) && (to.Some? ==> t <= to.value)
  }

  lemma TwoPassesInRange(raw: seq<Entry>, from: Option<int>, to: Option<int>)
    ensures SortedByTime(TwoPasses(raw, from, to))
    ensures forall x :: x in TwoPasses(raw, from, to) ==> InRange(x.time, from, to)
  {
    var first := Deliver(SkipHeld(raw, ZERO), 0, from, to);
    DeliverIsSorted(SkipHeld(raw, ZERO), 0, from, to);
    if first != [] {
      var later := Deliver(SkipHeld(raw, first[0]), first[0].time, from, to);
      DeliverIsSorted(SkipHeld(raw, first[0]), first[0].time, from, to);
      assert TwoPasses(raw, from, to) == [first[0]] + later;
      assert first[0] in first;
    }
  }

  /** What a stream yields is in time order and in range, on any file. */
  lemma YieldIsSorted(file: File, from: Option<int>, to: Option<int>)
    requires file.Valid()
    ensures SortedByTime(Yield(file, from, to))
    ensures forall x :: x in Yield(file, from, to) ==> InRange(x.time, from, to)
  {
    TwoPassesInRange(EntriesFromSeek(file, from), from, to);
  }

  /**
   * When closing and reopening is invisible: nothing is delivered, or the first
   * entry is neither before the epoch nor the zero entry, or it is the zero entry
   * followed by another that is delivered as the zero entry.
   */
  predicate ReopenSafe(raw: seq<Entry>, to: Option<int>) {
    || raw == []
    || AfterTo(Max(0, raw[0].time), to)
    || (raw[0].time >= 0 && raw[0] != ZERO)
    || (raw[0] == ZERO && |raw| >= 2 && raw[1].(time := Max(0, raw[1].time)) == ZERO)
  }

  /** The two openings deliver each entry exactly once if and only if reopening is safe. */
  lemma DeliversExactlyOnce(raw: seq<Entry>, from: Option<int>, to: Option<int>)
    requires raw != [] ==> !BeforeFrom(raw[0].time, from)
    ensures TwoPasses(raw, from, to) == Deliver(raw, 0, from, to) <==> ReopenSafe(raw, to)
  {
    var once := Deliver(raw, 0, from, to);
    if raw != [] && !AfterTo(Max(0, raw[0].time), to) {
      assert once != [] && once[0] == raw[0].(time := Max(0, raw[0].time));
      if raw[0].time < 0 {
        assert TwoPasses(raw, from, to) == [once[0]] + once;
      } else if raw[0] == ZERO {
        ZeroFirst(raw, from, to);
      } else {
        assert once[0] == raw[0];
      }
    }
  }

  lemma ZeroFirst(raw: seq<Entry>, from: Option<int>, to: Option<int>)
    requires raw != [] && raw[0] == ZERO
    requires !BeforeFrom(0, from) && !AfterTo(0, to)
    ensures TwoPasses(raw, from, to) == Deliver(raw, 0, from, to) <==> ReopenSafe(raw, to)
  {
    var once := Deliver(raw, 0, from, to);
    assert once[0] == ZERO;
    assert SkipHeld(raw, ZERO) == raw[1..];
    if |raw| >= 2 {
      var r1 := raw[1].(time := Max(0, raw[1].time));
      assert raw[1..][0] == raw[1];
      var first := Deliver(raw[1..], 0, from, to);
      if AfterTo(r1.time, to) {
        assert first == [];
      } else {
        assert first[0] == r1;
        if r1 == ZERO {
          assert TwoPasses(raw, from, to) == [ZERO] + Deliver(raw[1..], 0, from, to);
        } else {
          assert TwoPasses(raw, from, to)[0] == r1;
        }
      }
    }
  }

  lemma EarlyEntryTwice(e: Entry)
    requires e.time < 0
    ensures TwoPasses([e], None, None) == [e.(time := 0), e.(time := 0)]
  {
    assert [e][1..] == [];
    assert Deliver([e], 0, None, None) == [e.(time := 0)];
    assert SkipHeld([e], e.(time := 0)) == [e];
  }

  /** A file that starts before the epoch has its first entry delivered twice. */
  lemma ReopenRepeatsEarlyEntry()
    ensures var file := File(1, [0], [Entry(-1, "", "x")], EOF, (None, None));
            file.Valid() && Yield(file, None, None) == [Entry(0, "", "x"), Entry(0, "", "x")]
  {
    var e := Entry(-1, "", "x");
    assert EntriesFromSeek(File(1, [0], [e], EOF, (None, None)), None) == [e];
    EarlyEntryTwice(e);
  }

  /** The entries of es in [from, to], in order. */
  function Within(es: seq<Entry>, from: Option<int>, to: Option<int>): seq<Entry> {
    if es == [] then []
    else (if BeforeFrom(es[0].time, from) || AfterTo(es[0].time, to) then [] else [es[0]])
         + Within(es[1..], from, to)
  }

  /** The entries in range are those whose time is neither below `from` nor above `to`, as often as given. */
  lemma {:induction false} WithinIs(es: seq<Entry>, from: Option<int>, to: Option<int>, x: Entry)
    ensures multiset(Within(es, from, to))[x]
         == if InRange(x.time, from, to) then multiset(es)[x] else 0
  {
    if es != [] {
      WithinIs(es[1..], from, to, x);
      assert es == [es[0]] + es[1..];
      var head := if BeforeFrom(es[0].time, from) || AfterTo(es[0].time, to) then [] else [es[0]];
      assert multiset(Within(es, from, to)) == multiset(head) + multiset(Within(es[1..], from, to));
    }
  }

  lemma {:induction false} WithinLate(es: seq<Entry>, from: Option<int>, to: Option<int>)
    requires forall x :: x in es ==> AfterTo(x.time, to)
    ensures Within(es, from, to) == []
  {
    if es != [] {
      WithinLate(es[1..], from, to);
    }
  }

  /** On sorted entries one pass is a filter on [from, to]. */
  lemma {:induction false} SortedDeliverIsFilter(es: seq<Entry>, prev: int, from: Option<int>, to: Option<int>)
    requires SortedByTime(es) && forall x :: x in es ==> x.time >= prev
    ensures Deliver(es, prev, from, to) == Within(es, from, to)
  {
    if es != [] {
      if AfterTo(es[0].time, to) {
        WithinLate(es, from, to);
      } else {
        SortedDeliverIsFilter(es[1..], es[0].time, from, to);
      }
    }
  }

  lemma {:induction false} WithinAtOrAfter(es: seq<Entry>, from: Option<int>, to: Option<int>)
    ensures Within(AtOrAfter(es, from), from, to) == Within(es, from, to)
  {
    if es != [] {
      WithinAtOrAfter(es[1..], from, to);
      var head := if from.None? || es[0].time >= from.value then [es[0]] else [];
      assert AtOrAfter(es, from) == head + AtOrAfter(es[1..], from);
      if head == [] {
        assert AtOrAfter(es, from) == AtOrAfter(es[1..], from);
      } else {
        assert AtOrAfter(es, from)[1..] == AtOrAfter(es[1..], from);
      }
    }
  }

  lemma FromSeekIsSuffix(file: File, from: Option<int>)
    requires file.Valid()
    ensures SortedByTime(file.entries) ==> SortedByTime(EntriesFromSeek(file, from))
    ensures forall x :: x in EntriesFromSeek(file, from) ==> x in file.entries
  {
  }

  /** The first entry decoded from the seek point is never before `from`. */
  lemma FromSeekStartsInRange(file: File, from: Option<int>)
    requires file.Valid() && EntriesFromSeek(file, from) != []
    ensures !BeforeFrom(EntriesFromSeek(file, from)[0].time, from)
  {
    if from.Some? {
      SeekStartsAtBoundary(file, from.value);
    }
  }

  /**
   * When two passes over ordered times lose and change nothing: nothing is in
   * range, or the first entry is neither before the epoch nor the zero entry, or
   * it is the zero entry followed by another.
   */
  predicate FilterSafe(raw: seq<Entry>, to: Option<int>) {
    || raw == []
    || AfterTo(raw[0].time, to)
    || (raw[0].time >= 0 && raw[0] != ZERO)
    || (raw[0] == ZERO && |raw| >= 2 && raw[1] == ZERO)
  }

  /** The file opens both times and decodes to its end. */
  predicate Readable(file: File) {
    file.faults == (None, None) && file.tail == EOF
  }

  /**
   * For a readable file with ordered times, the stream, with its binary search,
   * its two openings, its time ratchet and its cut, yields exactly the file's
   * entries in [from, to], each once, in order, if and only if the entries from
   * the seek point are safe to read in two passes.
   */
  lemma SortedFileIsFiltered(file: File, from: Option<int>, to: Option<int>)
    requires file.Valid() && Readable(file) && SortedByTime(file.entries)
    ensures Yield(file, from, to) == Within(file.entries, from, to) <==> FilterSafe(EntriesFromSeek(file, from), to)
  {
    SeekRefinesFilter(file, from);
    WithinAtOrAfter(file.entries, from, to);
    FromSeekIsSuffix(file, from);
    if EntriesFromSeek(file, from) != [] {
      FromSeekStartsInRange(file, from);
    }
    SortedPassesFilter(EntriesFromSeek(file, from), from, to);
  }

  lemma SortedPassesFilter(raw: seq<Entry>, from: Option<int>, to: Option<int>)
    requires SortedByTime(raw) && (raw != [] ==> !BeforeFrom(raw[0].time, from))
    ensures TwoPasses(raw, from, to) == Within(raw, from, to) <==> FilterSafe(raw, to)
  {
    if raw != [] {
      if AfterTo(raw[0].time, to) {
        WithinLate(raw, from, to);
        DeliverLate(SkipHeld(raw, ZERO), 0, from, to);
      } else if raw[0].time < 0 {
        DeliverIsSorted(SkipHeld(raw, ZERO), 0, from, to);
        assert Within(raw, from, to)[0] == raw[0];
      } else {
        DeliversExactlyOnce(raw, from, to);
        SortedDeliverIsFilter(raw, 0, from, to);
      }
    }
  }

  lemma DeliverLate(raw: seq<Entry>, prev: int, from: Option<int>, to: Option<int>)
    requires raw != [] ==> AfterTo(raw[0].time, to)
    ensures Deliver(raw, prev, from, to) == []
  {
  }
}
