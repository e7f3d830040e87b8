/** A log file as the entry decoder sees it, and the search for the first entry to read. */
module LogFile {
  import opened Common
  import opened LogEntry

  /**
   * An immutable file of `size` bytes. Decoding from byte i yields the first
   * entry that starts at or after i; past the last entry it yields `tail`.
   * `faults` are the errors of opening it the first and the second time, if any:
   * finding or reading it, detecting its format, or making its decoder.
   */
  datatype File = File(
    size: nat, starts: seq<nat>, entries: seq<Entry>, tail: Error, faults: (Option<Error>, Option<Error>))
  {
    ghost predicate Valid() {
      && |starts| == |entries|
      && (forall i, j :: 0 <= i < j < |starts| ==> starts[i] < starts[j])
      && (forall i :: 0 <= i < |starts| ==> starts[i] < size)
    }
  }

  type ValidFile = f: File | f.Valid() witness File(0, [], [], EOF, (None, None))

  datatype Seek = Found(offset: nat) | Missing(error: Error)

  /** Index of the first start at or after byte i. */
  function IndexFrom(starts: seq<nat>, i: nat): (k: nat)
    ensures k <= |starts|
  {
    if starts == [] || starts[0] >= i then 0 else 1 + IndexFrom(starts[1..], i)
  }

  lemma {:induction false} IndexFromIsFirst(starts: seq<nat>, i: nat)
    ensures var k := IndexFrom(starts, i);
            && (forall j :: 0 <= j < k ==> starts[j] < i)
            && (k < |starts| ==> starts[k] >= i)
  {
    if starts != [] && starts[0] < i {
      IndexFromIsFirst(starts[1..], i);
    }
  }

  lemma IndexFromNext(starts: seq<nat>, i: nat)
    requires i > 0 && forall a, b :: 0 <= a < b < |starts| ==> starts[a] < starts[b]
    ensures IndexFrom(starts, i - 1) <= IndexFrom(starts, i) <= IndexFrom(starts, i - 1) + 1
  {
    IndexFromIsFirst(starts, i - 1);
    IndexFromIsFirst(starts, i);
    var k := IndexFrom(starts, i - 1);
    assert k + 1 < |starts| ==> starts[k] < starts[k + 1];
  }

  /** What one probe of the search reports: an error, or whether the wanted entries start by byte i. */
  datatype Probe = After(yes: bool) | Broken(error: Error)

  function ProbeAt(f: File, from: int, i: nat): Probe
    requires f.Valid()
  {
    var k := IndexFrom(f.starts, i);
    if k < |f.entries| then After(f.entries[k].time >= from)
    else if f.tail == EOF then After(true)
    else Broken(f.tail)
  }

  /** sort.Search on [i, j): a probe that fails ends the search with its error. */
  function Bisect(f: File, from: int, i: nat, j: nat): (r: Seek)
    requires f.Valid() && i <= j
    decreases j - i
  {
    if i == j then Found(i)
    else
      var h := (i + j) / 2;
      match ProbeAt(f, from, h)
      case Broken(e) => Missing(e)
      case After(false) => Bisect(f, from, h + 1, j)
      case After(true) => Bisect(f, from, i, h)
  }

  /** Where reading starts. */
  function SeekResult(f: File, from: Option<int>): (r: Seek)
    requires f.Valid()
  {
    if from.None? then Found(0)
    else
      match Bisect(f, from.value, 0, f.size)
      case Missing(e) => Missing(e)
      case Found(o) => if IndexFrom(f.starts, o) < |f.entries| then Found(o) else Missing(f.tail)
  }

  method SeekToFirstAfterFrom(f: File, from: Option<int>) returns (r: Seek)
    requires f.Valid()
    ensures r == SeekResult(f, from)
  {
    if from.None? {
      return Found(0);
    }
    var i, j := 0, f.size;
    while i < j
      invariant 0 <= i <= j <= f.size
      invariant Bisect(f, from.value, i, j) == Bisect(f, from.value, 0, f.size)
    {
      var h := (i + j) / 2;
      var k := IndexFrom(f.starts, h);
      if k == |f.entries| {
        if f.tail != EOF {
          return Missing(f.tail);
        }
        j := h;
      } else if f.entries[k].time >= from.value {
        j := h;
      } else {
        i := h + 1;
      }
    }
    if IndexFrom(f.starts, i) == |f.entries| {
      return Missing(f.tail);
    }
    return Found(i);
  }

  /** A boundary of the search: false just before the offset, true at it. */
  ghost predicate Boundary(f: File, from: int, i: nat, j: nat)
    requires f.Valid()
  {
    && i <= j <= f.size
    && (i > 0 ==> ProbeAt(f, from, i - 1) == After(false))
    && (j < f.size ==> ProbeAt(f, from, j) == After(true))
  }

  lemma {:induction false} BisectFindsBoundary(f: File, from: int, i: nat, j: nat)
    requires f.Valid() && Boundary(f, from, i, j)
    ensures match Bisect(f, from, i, j)
            case Missing(e) => e == f.tail && e != EOF
            case Found(o) => Boundary(f, from, o, o)
    decreases j - i
  {
    if i < j {
      var h := (i + j) / 2;
      match ProbeAt(f, from, h)
      case Broken(e) =>
      case After(false) => BisectFindsBoundary(f, from, h + 1, j);
      case After(true) => BisectFindsBoundary(f, from, i, h);
    }
  }

  /**
   * On any file, sorted or not: the first entry read is at or after `from` and
   * the entry before it, if any, is before `from`. Nothing is found only when
   * decoding fails or the last entry is before `from`.
   */
  lemma SeekStartsAtBoundary(f: File, from: int)
    requires f.Valid()
    ensures match SeekResult(f, Some(from))
            case Found(o) =>
              var k := IndexFrom(f.starts, o);
              && k < |f.entries|
              && f.entries[k].time >= from
              && (k > 0 ==> f.entries[k - 1].time < from)
            case Missing(e) =>
              && e == f.tail
              && (e == EOF && f.entries != [] ==> f.entries[|f.entries| - 1].time < from)
  {
    BisectFindsBoundary(f, from, 0, f.size);
    match Bisect(f, from, 0, f.size)
    case Missing(_) =>
    case Found(o) => EntryAtBoundary(f, from, o);
  }

  lemma EntryAtBoundary(f: File, from: int, o: nat)
    requires f.Valid() && Boundary(f, from, o, o)
    ensures var k := IndexFrom(f.starts, o);
            && (k > 0 ==> f.entries[k - 1].time < from)
            && (k < |f.entries| ==> f.entries[k].time >= from)
  {
    var k := IndexFrom(f.starts, o);
    IndexFromIsFirst(f.starts, o);
    if o > 0 {
      IndexFromNext(f.starts, o);
      var k' := IndexFrom(f.starts, o - 1);
      assert k' < |f.entries| && f.entries[k'].time < from;
    }
  }

  /** The entries of es at or after `from`, in order. */
  function AtOrAfter(es: seq<Entry>, from: Option<int>): seq<Entry> {
    if es == [] then []
    else (if from.None? || es[0].time >= from.value then [es[0]] else []) + AtOrAfter(es[1..], from)
  }

  lemma {:induction false} SortedFilterIsSuffix(es: seq<Entry>, from: int, k: nat)
    requires SortedByTime(es) && k <= |es|
    requires k < |es| ==> es[k].time >= from
    requires k > 0 ==> es[k - 1].time < from
    ensures AtOrAfter(es, Some(from)) == es[k..]
  {
    if es != [] {
      if k == 0 {
        SortedFilterIsSuffix(es[1..], from, 0);
      } else {
        SortedFilterIsSuffix(es[1..], from, k - 1);
        assert es[1..][k - 1..] == es[k..];
      }
    }
  }

  lemma {:induction false} NoFilter(es: seq<Entry>)
    ensures AtOrAfter(es, None) == es
  {
    if es != [] {
      NoFilter(es[1..]);
    }
  }

  /** The entries decoded from where reading starts. */
  function EntriesFromSeek(f: File, from: Option<int>): seq<Entry>
    requires f.Valid()
  {
    match SeekResult(f, from)
    case Found(o) => f.entries[IndexFrom(f.starts, o)..]
    case Missing(_) => []
  }

  /** On a sorted, readable file the binary search is a filter. */
  lemma SeekRefinesFilter(f: File, from: Option<int>)
    requires f.Valid() && SortedByTime(f.entries) && f.tail == EOF
    ensures EntriesFromSeek(f, from) == AtOrAfter(f.entries, from)
  {
    if from.None? {
      NoFilter(f.entries);
      assert IndexFrom(f.starts, 0) == 0;
    } else {
      SeekStartsAtBoundary(f, from.value);
      match SeekResult(f, from)
      case Found(o) => SortedFilterIsSuffix(f.entries, from.value, IndexFrom(f.starts, o));
      case Missing(_) => SortedFilterIsSuffix(f.entries, from.value, |f.entries|);
    }
  }
}
