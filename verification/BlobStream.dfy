/** Cutting a byte stream into chunks on one side and rejoining it on the other. */
module BlobStream {
  import opened Common

  /** What one Recv on the stream gives; past the last item it gives io.EOF. */
  datatype Item = Chunk(payload: Bytes) | Broken(msg: string)

  function Payload(item: Item): Bytes {
    if item.Chunk? then item.payload else []
  }

  /** The bytes of all chunks, in order. */
  function Payloads(items: seq<Item>): Bytes {
    if items == [] then [] else Payload(items[0]) + Payloads(items[1..])
  }

  predicate AllChunks(items: seq<Item>) {
    forall i :: 0 <= i < |items| ==> items[i].Chunk?
  }

  /** blobStreamReader. */
  class Reader {
    var lastPayload: Option<Bytes>
    var lastOffset: nat
    var eofReached: bool
    var incoming: seq<Item>

    constructor (items: seq<Item>)
      ensures Valid() && incoming == items && !eofReached && lastPayload.None? && Ahead() == Payloads(items)
    {
      lastPayload, lastOffset, eofReached, incoming := None, 0, false, items;
    }

    ghost predicate Valid()
      reads this
    {
      && (lastPayload.Some? ==> lastOffset <= |lastPayload.value|)
      && (eofReached ==> incoming == [] && lastPayload.None?)
    }

    /** The unread tail of the cached payload. */
    ghost function Tail(): Bytes
      reads this
      requires Valid()
    {
      if lastPayload.Some? then lastPayload.value[lastOffset..] else []
    }

    /** Bytes not delivered yet. */
    ghost function Ahead(): Bytes
      reads this
      requires Valid()
    {
      Tail() + Payloads(incoming)
    }

    /** The part of a received chunk that fits; the rest is cached. */
    method CutChunk(room: nat) returns (piece: Bytes)
      requires Valid() && !eofReached && lastPayload.None? && incoming != [] && incoming[0].Chunk?
      modifies this
      ensures Valid() && !eofReached && incoming == old(incoming)[1..]
      ensures |piece| <= room && (lastPayload.Some? ==> |piece| == room)
      ensures piece + Ahead() == old(Ahead())
    {
      var payload := incoming[0].payload;
      incoming := incoming[1..];
      var lenToWrite := |payload|;
      if room < |payload| {
        lenToWrite := room;
        lastPayload := Some(payload);
        lastOffset := lenToWrite;
      }
      assert Tail() == payload[lenToWrite..];
      CutJoins(payload, lenToWrite, Payloads(incoming));
      return payload[..lenToWrite];
    }

    /** One received chunk: its bytes go to out[offset..], and to the cache when it does not fit. */
    method TakeChunk(out: array<byte>, offset: nat) returns (after: nat)
      requires Valid() && !eofReached && lastPayload.None?
      requires offset < out.Length && incoming != [] && incoming[0].Chunk?
      modifies this, out
      ensures Valid() && !eofReached && incoming == old(incoming)[1..]
      ensures offset <= after <= out.Length && (lastPayload.Some? ==> after == out.Length)
      ensures out[..offset] == old(out[..offset])
      ensures forall i :: after <= i < out.Length ==> out[i] == old(out[i])
      ensures out[offset..after] + Ahead() == old(Ahead())
    {
      var piece := CutChunk(out.Length - offset);
      Copy(out, offset, piece);
      after := offset + |piece|;
    }

    /** The leftover of the previous payload goes to the front of out. */
    method TakeTail(out: array<byte>) returns (offset: nat)
      requires Valid() && !eofReached
      modifies this, out
      ensures Valid() && !eofReached && incoming == old(incoming)
      ensures offset <= out.Length && (lastPayload.Some? ==> offset == out.Length)
      ensures forall i :: offset <= i < out.Length ==> out[i] == old(out[i])
      ensures out[..offset] + Ahead() == old(Ahead())
    {
      if lastPayload.None? {
        return 0;
      }
      offset := |lastPayload.value| - lastOffset;
      ghost var tail := Tail();
      if out.Length < offset {
        Copy(out, 0, lastPayload.value[lastOffset..lastOffset + out.Length]);
        lastOffset := lastOffset + out.Length;
        offset := out.Length;
        CutJoins(tail, offset, Payloads(incoming));
        assert Tail() == tail[offset..];
        return;
      }
      Copy(out, 0, lastPayload.value[lastOffset..]);
      lastPayload := None;
      assert out[..offset] == tail;
    }

    /** Fills out[start..] from the stream; `whole` is what was ahead before out[..start] was filled. */
    method Fill(out: array<byte>, start: nat, ghost whole: Bytes) returns (n: nat, err: Option<Error>)
      requires Valid() && !eofReached && start <= out.Length && (lastPayload.Some? ==> start == out.Length)
      requires out[..start] + Ahead() == whole
      modifies this, out
      ensures Valid() && start <= n <= out.Length && out[..n] + Ahead() == whole
      ensures forall i :: n <= i < out.Length ==> out[i] == old(out[i])
      ensures err.None? ==> (eofReached <==> n < out.Length)
      ensures err != Some(EOF) && (err.Some? ==> !eofReached)
      ensures Consumed(old(incoming), incoming, err)
    {
      n := start;
      ghost var k := 0;
      while n < out.Length
        invariant start <= n <= out.Length && k <= |old(incoming)|
        invariant Valid() && !eofReached && (lastPayload.Some? ==> n == out.Length)
        invariant Took(old(incoming), k, incoming)
        invariant forall i :: n <= i < out.Length ==> out[i] == old(out[i])
        invariant out[..n] + Ahead() == whole
        decreases |incoming|
      {
        if incoming == [] {
          eofReached := true;
          return n, None;
        }
        if incoming[0].Broken? {
          err := Some(Failure(incoming[0].msg));
          assert incoming == [Broken(err.value.msg)] + incoming[1..];
          incoming := incoming[1..];
          return n, err;
        }
        ghost var before, done := Ahead(), out[..n];
        var after := TakeChunk(out, n);
        Rejoin(out[..], done, n, after, before, Ahead());
        n := after;
        k := k + 1;
      }
      return n, None;
    }

    /**
     * Fills `out` from the cached tail and then from the stream. What is
     * delivered followed by what is still ahead is what was ahead before. Without
     * an error the buffer is full or the stream has ended; io.EOF is reported
     * only after everything was delivered; no stream error is passed over.
     */
    method Read(out: array<byte>) returns (n: nat, err: Option<Error>)
      requires Valid()
      modifies this, out
      ensures Valid()
      ensures n <= out.Length && forall i :: n <= i < out.Length ==> out[i] == old(out[i])
      ensures out[..n] + Ahead() == old(Ahead())
      ensures err == Some(EOF) <==> old(eofReached)
      ensures old(eofReached) ==> eofReached
      ensures eofReached ==> Ahead() == []
      ensures err.None? ==> (eofReached <==> n < out.Length)
      ensures Consumed(old(incoming), incoming, err)
    {
      if eofReached {
        assert Took(incoming, 0, incoming);
        return 0, Some(EOF);
      }
      var offset := TakeTail(out);
      n, err := Fill(out, offset, old(Ahead()));
    }
  }

  lemma Reassociate<T>(done: seq<T>, got: seq<T>, later: seq<T>, before: seq<T>)
    requires got + later == before
    ensures (done + got) + later == done + before
  {
  }

  lemma CutJoins<T>(payload: seq<T>, n: nat, later: seq<T>)
    requires n <= |payload|
    ensures payload[..n] + (payload[n..] + later) == payload + later
  {
    assert payload == payload[..n] + payload[n..];
  }

  lemma Rejoin<T>(out: seq<T>, done: seq<T>, offset: nat, after: nat, before: seq<T>, later: seq<T>)
    requires offset <= after <= |out| && out[..offset] == done
    requires out[offset..after] + later == before
    ensures out[..after] + later == done + before
  {
    assert out[..after] == out[..offset] + out[offset..after];
  }

  ghost predicate Took(before: seq<Item>, k: nat, after: seq<Item>) {
    k <= |before| && after == before[k..] && AllChunks(before[..k])
  }

  /** Only chunks were taken from the stream, and the item that gave the error, if any. */
  ghost predicate Consumed(before: seq<Item>, after: seq<Item>, err: Option<Error>) {
    var rest := if err.Some? && err.value.Failure? then [Broken(err.value.msg)] + after else after;
    exists k: nat :: Took(before, k, rest)
  }

  /** copy(out[at:], data) */
  method Copy(out: array<byte>, at: nat, data: Bytes)
    requires at + |data| <= out.Length
    modifies out
    ensures out[..at] == old(out[..at])
    ensures out[at..at + |data|] == data
    ensures forall i :: at + |data| <= i < out.Length ==> out[i] == old(out[i])
  {
    forall i | 0 <= i < |data| {
      out[at + i] := data[i];
    }
  }

  predicate ProperChunks(chunks: seq<Bytes>, size: nat) {
    forall i :: 0 <= i < |chunks| ==> 1 <= |chunks[i]| <= size
  }

  /** streamWriter: `buf` is its reused payload buffer, `sent` what the stream accepted. */
  class Writer {
    const buf: array<byte>
    var sent: seq<Bytes>
    var outcomes: seq<Option<Error>>   // of the coming sends; past the last one they succeed

    constructor (chunkSize: nat, outcomes: seq<Option<Error>>)
      requires chunkSize > 0
      ensures fresh(buf) && buf.Length == chunkSize && sent == [] && this.outcomes == outcomes
    {
      buf := new byte[chunkSize];
      sent := [];
      this.outcomes := outcomes;
    }

    method Send(chunk: Bytes) returns (err: Option<Error>)
      modifies this
      ensures err == (if old(outcomes) == [] then None else old(outcomes)[0])
      ensures outcomes == (if old(outcomes) == [] then [] else old(outcomes)[1..])
      ensures sent == if err.None? then old(sent) + [chunk] else old(sent)
    {
      err := None;
      if outcomes != [] {
        err := outcomes[0];
        outcomes := outcomes[1..];
      }
      if err.None? {
        sent := sent + [chunk];
      }
    }

    /**
     * Sends p in chunks of at most the buffer's size. The count returned is the
     * number of bytes the stream accepted; it falls short only on a send error.
     */
    method Write(p: Bytes) returns (n: nat, err: Option<Error>)
      requires buf.Length > 0 && ProperChunks(sent, buf.Length)
      modifies this, buf
      ensures ProperChunks(sent, buf.Length)
      ensures n <= |p| && Concat(sent) == old(Concat(sent)) + p[..n]
      ensures err.None? <==> n == |p|
      ensures forall i :: |old(sent)| <= i < |sent| - 1 ==> |sent[i]| == buf.Length
      ensures |old(sent)| <= |sent| && old(sent) == sent[..|old(sent)|]
      ensures old(outcomes) == [] ==> err.None? && outcomes == []
    {
      n := 0;
      var left := p;
      assert Concat(sent) == old(Concat(sent)) + p[..0];
      while |left| > 0
        invariant n + |left| == |p| && left == p[n..]
        invariant ProperChunks(sent, buf.Length)
        invariant Concat(sent) == old(Concat(sent)) + p[..n]
        invariant |old(sent)| <= |sent| && old(sent) == sent[..|old(sent)|]
        invariant forall i :: |old(sent)| <= i < |sent| && |left| > 0 ==> |sent[i]| == buf.Length
        invariant forall i :: |old(sent)| <= i < |sent| - 1 ==> |sent[i]| == buf.Length
        invariant old(outcomes) == [] ==> outcomes == []
        decreases |left|
      {
        var l := if |left| < buf.Length then |left| else buf.Length;
        Copy(buf, 0, left[..l]);
        SendMore(old(Concat(sent)), sent, p, n, left[..l]);
        left := left[l..];
        if l > 0 {
          err := Send(buf[0..l]);
          if err.Some? {
            return n, err;
          }
        }
        n := n + l;
      }
      err := None;
      assert p[..n] == p;
    }
  }

  lemma SendMore(start: Bytes, sent: seq<Bytes>, p: Bytes, n: nat, chunk: Bytes)
    requires n + |chunk| <= |p| && Concat(sent) == start + p[..n]
    requires chunk == p[n..][..|chunk|]
    ensures Concat(sent + [chunk]) == start + p[..n + |chunk|]
  {
    ConcatSnoc(sent, chunk);
    assert p[..n + |chunk|] == p[..n] + chunk;
  }

  /** The receiver's view of what was sent. */
  function AsItems(chunks: seq<Bytes>): seq<Item> {
    seq(|chunks|, i requires 0 <= i < |chunks| => Chunk(chunks[i]))
  }

  lemma {:induction false} ItemsCarryChunks(chunks: seq<Bytes>)
    ensures Payloads(AsItems(chunks)) == Concat(chunks)
  {
    if chunks != [] {
      assert AsItems(chunks)[1..] == AsItems(chunks[1..]);
      ItemsCarryChunks(chunks[1..]);
    }
  }

  method SendAll(writes: seq<Bytes>, chunkSize: nat) returns (sent: seq<Bytes>)
    requires chunkSize > 0
    ensures ProperChunks(sent, chunkSize) && Concat(sent) == Concat(writes)
  {
    var w := new Writer(chunkSize, []);
    var i := 0;
    while i < |writes|
      invariant 0 <= i <= |writes| && fresh(w) && fresh(w.buf) && w.buf.Length == chunkSize
      invariant w.outcomes == [] && ProperChunks(w.sent, chunkSize)
      invariant Concat(w.sent) == Concat(writes[..i])
    {
      var n, err := w.Write(writes[i]);
      assert writes[..i + 1] == writes[..i] + [writes[i]];
      assert writes[i][..n] == writes[i];
      ConcatSnoc(writes[..i], writes[i]);
      i := i + 1;
    }
    assert writes[..i] == writes;
    return w.sent;
  }

  /** The room that the first j reads have together. */
  function Room(sizes: seq<nat>, j: nat): nat
    requires j <= |sizes|
  {
    if j == 0 then 0 else Room(sizes, j - 1) + sizes[j - 1]
  }

  function Min(a: nat, b: nat): nat {
    if a < b then a else b
  }

  /** Reads of chunks give no error but io.EOF, and a failure is an item that is no chunk. */
  lemma ChunksTaken(before: seq<Item>, after: seq<Item>, err: Option<Error>)
    requires Consumed(before, after, err)
    ensures err.None? || err == Some(EOF) ==> (AllChunks(before) <==> AllChunks(after))
    ensures err.Some? && err != Some(EOF) ==> !AllChunks(before)
  {
    var rest := if err.Some? && err.value.Failure? then [Broken(err.value.msg)] + after else after;
    var k: nat :| Took(before, k, rest);
    assert Took(before, k, rest);
    assert before == before[..k] + rest;
    if err.Some? && err.value.Failure? {
      assert before[k] == Broken(err.value.msg);
    }
  }

  /**
   * Of `whole` bytes the first j reads delivered `got`: as many as they have room
   * for. `eof` is whether they met the end, and `sawEof` whether the last of them
   * reported it.
   */
  predicate Received(whole: nat, sizes: seq<nat>, j: nat, got: nat, eof: bool, sawEof: bool)
    requires j <= |sizes|
  {
    && got == Min(Room(sizes, j), whole)
    && (eof <==> Room(sizes, j) > whole)
    && (sawEof <==> j > 0 && Room(sizes, j - 1) > whole)
  }

  lemma ReceiveMore(whole: nat, sizes: seq<nat>, j: nat, got: nat, eof: bool, saw: bool, n: nat, left: nat, eof': bool)
    requires j < |sizes| && Received(whole, sizes, j, got, eof, saw)
    requires n <= sizes[j] && got + n + left == whole && (eof' ==> left == 0)
    requires eof ==> eof'
    requires !eof ==> (eof' <==> n < sizes[j])
    ensures Received(whole, sizes, j + 1, got + n, eof', eof)
  {
  }

  /** One read with a buffer of the given size. */
  method ReceiveOne(r: Reader, size: nat) returns (got: Bytes, sawEof: bool)
    requires r.Valid()
    modifies r
    ensures r.Valid() && |got| <= size
    ensures got + r.Ahead() == old(r.Ahead())
    ensures sawEof <==> old(r.eofReached)
    ensures (sawEof ==> r.eofReached) && (r.eofReached ==> r.Ahead() == [])
    ensures AllChunks(old(r.incoming)) ==> AllChunks(r.incoming) && (!sawEof ==> (r.eofReached <==> |got| < size))
  {
    var out := new byte[size];
    var n, err := r.Read(out);
    got, sawEof := out[..n], err == Some(EOF);
    ChunksTaken(old(r.incoming), r.incoming, err);
  }

  /**
   * Reads of the given sizes. What they deliver followed by what is ahead is the
   * whole stream. On a stream without failures they deliver as much of it as they
   * have room for, and the last one reports io.EOF exactly when those before it
   * had room for more than all of it.
   */
  method ReceiveAll(r: Reader, sizes: seq<nat>) returns (delivered: Bytes, sawEof: bool)
    requires r.Valid() && !r.eofReached
    modifies r
    ensures r.Valid()
    ensures delivered + r.Ahead() == old(r.Ahead())
    ensures sawEof ==> r.Ahead() == []
    ensures AllChunks(old(r.incoming)) ==>
              Received(|old(r.Ahead())|, sizes, |sizes|, |delivered|, r.eofReached, sawEof)
  {
    ghost var whole, sound := r.Ahead(), AllChunks(r.incoming);
    delivered, sawEof := [], false;
    var j := 0;
    while j < |sizes|
      invariant 0 <= j <= |sizes| && r.Valid()
      invariant delivered + r.Ahead() == whole
      invariant sawEof ==> r.eofReached
      invariant sound ==> AllChunks(r.incoming)
      invariant sound ==> Received(|whole|, sizes, j, |delivered|, r.eofReached, sawEof)
    {
      ghost var before, eof, saw := r.Ahead(), r.eofReached, sawEof;
      var got;
      got, sawEof := ReceiveOne(r, sizes[j]);
      Reassociate(delivered, got, r.Ahead(), before);
      if sound {
        ReceiveMore(|whole|, sizes, j, |delivered|, eof, saw, |got|, |r.Ahead()|, r.eofReached);
      }
      delivered := delivered + got;
      j := j + 1;
    }
  }

  /**
   * Any sequence of writes on one side and of read sizes on the other: the reads
   * deliver what was written, in order, as far as they have room, whatever the
   * chunk size; the last one reports io.EOF exactly when those before it had room
   * for more.
   */
  method Transfer(writes: seq<Bytes>, chunkSize: nat, sizes: seq<nat>) returns (delivered: Bytes, sawEof: bool)
    requires chunkSize > 0
    ensures delivered == Concat(writes)[..Min(Room(sizes, |sizes|), |Concat(writes)|)]
    ensures sawEof <==> sizes != [] && Room(sizes, |sizes| - 1) > |Concat(writes)|
  {
    var sent := SendAll(writes, chunkSize);
    ItemsCarryChunks(sent);
    var r := new Reader(AsItems(sent));
    delivered, sawEof := ReceiveAll(r, sizes);
  }

  /** One Read of the content being sent; past the last one it gives io.EOF. */
  datatype Source = Source(data: Bytes, err: Option<Error>)

  /** The reads that carried data, as chunks. */
  function Chunks(src: seq<Source>): seq<Bytes> {
    if src == [] then []
    else
      var n := |src| - 1;
      Chunks(src[..n]) + if src[n].data == [] then [] else [src[n].data]
  }

  /** How the n-th send goes; past the last outcome sends succeed. */
  function SendOutcome(sends: seq<Option<Error>>, n: nat): Option<Error> {
    if n < |sends| then sends[n] else None
  }

  /** The error the loop sees after read i: a send's when there was data, else the read's own. */
  function ErrorAt(src: seq<Source>, sends: seq<Option<Error>>, i: nat): Option<Error>
    requires i <= |src|
  {
    if i == |src| then Some(EOF)
    else if src[i].data != [] then SendOutcome(sends, |Chunks(src[..i])|)
    else src[i].err
  }

  /** The first read, from i on, after which the loop sees an error: its last. */
  function LastRead(src: seq<Source>, sends: seq<Option<Error>>, i: nat): (k: nat)
    requires i <= |src|
    ensures i <= k <= |src| && ErrorAt(src, sends, k).Some?
    ensures forall j :: i <= j < k ==> ErrorAt(src, sends, j).None?
    decreases |src| - i
  {
    if ErrorAt(src, sends, i).Some? then i else LastRead(src, sends, i + 1)
  }

  /** The result of streamContent: io.EOF is success, wherever it comes from. */
  function Result(src: seq<Source>, sends: seq<Option<Error>>): Option<Error> {
    var e := ErrorAt(src, sends, LastRead(src, sends, 0));
    if e == Some(EOF) then None else e
  }

  /** streamContent: the chunks sent are the non-empty reads before the last one, in order. */
  method StreamContent(src: seq<Source>, sends: seq<Option<Error>>) returns (sent: seq<Bytes>, err: Option<Error>)
    ensures sent == Chunks(src[..LastRead(src, sends, 0)])
    ensures err == Result(src, sends)
    ensures var k := LastRead(src, sends, 0);
            && (forall i :: 0 <= i < k && src[i].data == [] ==> src[i].err.None?)
            && (forall j :: 0 <= j < |sent| && j < |sends| ==> sends[j].None?)
            && (k == |src| ==> err.None?)
            && (k < |src| && src[k].data == [] ==>
                  src[k].err.Some? && err == if src[k].err.value == EOF then None else src[k].err)
            && (k < |src| && src[k].data != [] ==>
                  |sent| < |sends| && sends[|sent|].Some?
                  && err == if sends[|sent|].value == EOF then None else sends[|sent|])
  {
    sent := [];
    var i := 0;
    while true
      invariant 0 <= i <= |src|
      invariant LastRead(src, sends, i) == LastRead(src, sends, 0)
      invariant sent == Chunks(src[..i])
      invariant forall j :: 0 <= j < |sent| && j < |sends| ==> sends[j].None?
      invariant forall j :: 0 <= j < i && src[j].data == [] ==> src[j].err.None?
      decreases |src| - i
    {
      var data, e := [], Some(EOF);
      if i < |src| {
        data, e := src[i].data, src[i].err;
      }
      if |data| > 0 {
        e := SendOutcome(sends, |sent|);
        if e.None? {
          sent := sent + [data];
        }
      }
      if e == Some(EOF) {
        return sent, None;
      }
      if e.Some? {
        return sent, e;
      }
      ChunksSnoc(src, i);
      i := i + 1;
    }
  }

  lemma ChunksSnoc(src: seq<Source>, i: nat)
    requires i < |src|
    ensures Chunks(src[..i + 1]) == Chunks(src[..i]) + if src[i].data == [] then [] else [src[i].data]
  {
    assert src[..i + 1][..i] == src[..i];
  }

  predicate Fails(s: Source) {
    s.err.Some? && s.err.value.Failure?
  }

  /** A failure that comes together with data is lost when the next read reports io.EOF. */
  lemma FailureWithDataIsLost()
    ensures var src := [Source([0], Some(Failure("disk"))), Source([], Some(EOF))];
            Fails(src[0]) && Result(src, []).None?
  {
    var src := [Source([0], Some(Failure("disk"))), Source([], Some(EOF))];
    assert LastRead(src, [], 1) == 1;
  }

  /** The loop makes read i. */
  predicate Made(src: seq<Source>, sends: seq<Option<Error>>, i: nat) {
    i < |src| && i <= LastRead(src, sends, 0)
  }

  /** If a send ended the loop, it gave io.EOF. */
  predicate SendEndedWell(src: seq<Source>, sends: seq<Option<Error>>) {
    var k := LastRead(src, sends, 0);
    k < |src| && src[k].data != [] ==> SendOutcome(sends, |Chunks(src[..k])|) == Some(EOF)
  }

  /**
   * A read that fails is reported as success if and only if every read made that
   * fails brings data, some does, and a send that ended the loop gave io.EOF.
   */
  lemma FailureIsLostIff(src: seq<Source>, sends: seq<Option<Error>>)
    ensures (exists i: nat :: Made(src, sends, i) && Fails(src[i])) && Result(src, sends).None? <==>
            && (exists i: nat :: Made(src, sends, i) && Fails(src[i]))
            && (forall i: nat :: Made(src, sends, i) && Fails(src[i]) ==> src[i].data != [])
            && SendEndedWell(src, sends)
  {
    var k := LastRead(src, sends, 0);
    forall i: nat | Made(src, sends, i)
      ensures Fails(src[i]) && src[i].data == [] ==> i == k
    {
      assert i < k ==> ErrorAt(src, sends, i).None?;
    }
    assert k < |src| ==> Made(src, sends, k);
  }
}
