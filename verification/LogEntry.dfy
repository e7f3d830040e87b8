/** The part of a log entry and of a log file that merging looks at. */
module LogEntry {
  import opened Common

  /** `body` stands for every field other than the time and the tenant. */
  datatype Entry = Entry(time: int, tenant: string, body: string)

  /** The zero value of an entry, which a file stream holds before its first read. */
  const ZERO := Entry(0, "", "")

  /**
   * A stream of the file with the given number: the entries it will still yield,
   * and the failure it ends with (None when it ends with io.EOF).
   */
  datatype Stream = Stream(file: nat, rest: seq<Entry>, failure: Option<Error>)

  ghost predicate SortedByTime(es: seq<Entry>) {
    forall i, j :: 0 <= i < j < |es| ==> es[i].time <= es[j].time
  }
}
