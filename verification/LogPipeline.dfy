/**
 * The three goroutines of writeLogStream: `read` peeks and pops the merged
 * stream into a buffered channel, `bufferWrites` renders and filters entries
 * into a pending buffer and hands full buffers over an unbuffered channel, and
 * `write` copies each buffer to the output. Every atomic action of a goroutine
 * is one step; a run is any sequence of enabled steps.
 */
module LogPipeline {
  import opened Common
  import opened LogEntry

  const CHAN_SIZE := 0x1_0000
  const MAX_WRITE_BUF_SIZE := 0x4_0000
  const NEWLINE: byte := 10

  datatype EntryInfo = EntryInfo(entry: Entry, prefix: Bytes)

  /** What rendering appends to the buffer, and whether it succeeded. */
  datatype Rendered = Rendered(text: Bytes, ok: bool)

  datatype Config = Config(
    render: EntryInfo -> Rendered,
    filter: Option<Bytes -> Option<seq<Bytes>>>,
    tenants: seq<string>)

  /** What one entry contributes to the output. */
  function Shown(c: Config, ei: EntryInfo): Bytes {
    var r := c.render(ei);
    if c.tenants != [] && ei.entry.tenant !in c.tenants then []
    else if !r.ok then []
    else if c.filter.None? then r.text
    else
      var m := c.filter.value(r.text);
      if m.None? then []
      else if |m.value| > 1 then Concat(m.value[1..]) + [NEWLINE]
      else r.text
  }

  predicate RenderFails(c: Config, ei: EntryInfo) {
    (c.tenants == [] || ei.entry.tenant in c.tenants) && !c.render(ei).ok
  }

  function ShownAll(c: Config, eis: seq<EntryInfo>): Bytes {
    if eis == [] then [] else ShownAll(c, eis[..|eis| - 1]) + Shown(c, eis[|eis| - 1])
  }

  lemma PrefixExtend<T>(x: seq<T>, y: seq<T>, z: seq<T>)
    requires x <= y
    ensures x <= y + z
  {
  }

  lemma ShownAllSnoc(c: Config, eis: seq<EntryInfo>, ei: EntryInfo)
    ensures ShownAll(c, eis + [ei]) == ShownAll(c, eis) + Shown(c, ei)
  {
    assert (eis + [ei])[..|eis|] == eis;
  }

  lemma {:induction false} ShownAllPrefix(c: Config, eis: seq<EntryInfo>, i: nat, k: nat)
    requires i <= k <= |eis|
    ensures ShownAll(c, eis[..i]) <= ShownAll(c, eis[..k])
  {
    if i < k {
      ShownAllPrefix(c, eis, i, k - 1);
      assert eis[..k] == eis[..k - 1] + [eis[k - 1]];
      ShownAllSnoc(c, eis[..k - 1], eis[k - 1]);
      PrefixExtend(ShownAll(c, eis[..i]), ShownAll(c, eis[..k - 1]), Shown(c, eis[k - 1]));
    }
  }

  /** The receive branch of bufferWrites: render, match, truncate and write back. */
  method AppendEntry(c: Config, pending: Bytes, ei: EntryInfo) returns (after: Bytes, ok: bool)
    ensures ok == !RenderFails(c, ei)
    ensures ok ==> after == pending + Shown(c, ei)
    ensures c.tenants != [] && ei.entry.tenant !in c.tenants ==> ok && after == pending
    ensures (c.tenants == [] || ei.entry.tenant in c.tenants) ==>
              var text := c.render(ei).text;
              && (ok <==> c.render(ei).ok)
              && (!ok || c.filter.None? ==> after == pending + text)
              && (ok && c.filter.Some? ==>
                    match c.filter.value(text)
                    case None => after == pending
                    case Some(m) => after == pending + if |m| > 1 then Concat(m[1..]) + [10] else text)
  {
    after, ok := pending, true;
    if c.tenants != [] && ei.entry.tenant !in c.tenants {
      return;
    }
    var startLen := |after|;
    var r := c.render(ei);
    after := after + r.text;
    if !r.ok {
      return after, false;
    }
    if c.filter.Some? {
      assert after[startLen..] == r.text;
      var matches := c.filter.value(after[startLen..]);
      if matches.None? {
        after := after[..startLen];
      } else if |matches.value| > 1 {
        var scratch: Bytes := [];
        var i := 1;
        while i < |matches.value|
          invariant 1 <= i <= |matches.value|
          invariant scratch == Concat(matches.value[1..i])
        {
          scratch := scratch + matches.value[i];
          assert matches.value[1..i + 1] == matches.value[1..i] + [matches.value[i]];
          ConcatSnoc(matches.value[1..i], matches.value[i]);
          i := i + 1;
        }
        assert matches.value[1..i] == matches.value[1..];
        after := after[..startLen];
        after := after + scratch + [NEWLINE];
      }
    }
  }

  /** The entry is of a wanted tenant, can be rendered, and its rendering matches the filter, if any. */
  predicate Kept(c: Config, ei: EntryInfo) {
    && (c.tenants == [] || ei.entry.tenant in c.tenants)
    && c.render(ei).ok
    && (c.filter.None? || c.filter.value(c.render(ei).text).Some?)
  }

  /** What a kept entry is printed as: its rendering, or what the filter's groups captured, as a line. */
  function Text(c: Config, ei: EntryInfo): Bytes
    requires Kept(c, ei)
  {
    var text := c.render(ei).text;
    if c.filter.Some? && |c.filter.value(text).value| > 1 then Concat(c.filter.value(text).value[1..]) + [10] else text
  }

  /** The texts of the kept entries, in order. */
  function KeptTexts(c: Config, eis: seq<EntryInfo>): seq<Bytes> {
    if eis == [] then []
    else
      var n := |eis| - 1;
      KeptTexts(c, eis[..n]) + if Kept(c, eis[n]) then [Text(c, eis[n])] else []
  }

  /** The output is made of the texts of the entries that pass both filters, and nothing else. */
  lemma {:induction false} ShownAllIsKept(c: Config, eis: seq<EntryInfo>)
    ensures ShownAll(c, eis) == Concat(KeptTexts(c, eis))
  {
    if eis != [] {
      var n := |eis| - 1;
      ShownAllIsKept(c, eis[..n]);
      if Kept(c, eis[n]) {
        ConcatSnoc(KeptTexts(c, eis[..n]), Text(c, eis[n]));
      } else {
        assert KeptTexts(c, eis[..n]) + [] == KeptTexts(c, eis[..n]);
      }
    }
  }

  /** The two bytes.Buffers that bufferWrites swaps. */
  datatype Slot = SlotA | SlotB

  function Other(s: Slot): Slot {
    if s == SlotA then SlotB else SlotA
  }

  datatype ReaderPc = Peeking | Sending(ei: EntryInfo) | Popping | ReaderDone
  datatype BufferPc = Selecting | Swapping | BufferDone
  datatype WriterPc = Receiving | Writing(buf: Slot, off: nat) | WriterDone

  datatype State = State(
    rest: seq<EntryInfo>,     // what the stream still holds
    reader: ReaderPc,
    chan: seq<EntryInfo>,     // entryChan
    chanClosed: bool,
    received: seq<EntryInfo>, // history of what bufferWrites took from entryChan
    buffer: BufferPc,
    recvNil: bool,            // entryChan was set to nil by bufferWrites
    pending: Slot,
    a: Bytes,
    b: Bytes,
    writeClosed: bool,
    writer: WriterPc,
    out: Bytes,
    err: Option<Error>)       // first error of the group; it also cancels the context

  function Content(st: State, s: Slot): Bytes {
    if s == SlotA then st.a else st.b
  }

  function SetContent(st: State, s: Slot, v: Bytes): State {
    if s == SlotA then st.(a := v) else st.(b := v)
  }

  /** errgroup keeps the first error only. */
  function Fail(st: State, e: Error): State {
    if st.err.Some? then st else st.(err := Some(e))
  }

  datatype Action =
    | Peek | Send | Pop | ReadCancelled
    | Receive | SeeClosed | HandOff | Swap | Finish | BufferCancelled
    | WriteSome(n: nat) | WriteEnd | WriteFails(e: Error) | WriteClosed

  function Init(input: seq<EntryInfo>): State {
    State(input, Peeking, [], false, [], Selecting, false, SlotA, [], [], false, Receiving, [], None)
  }

  predicate Enabled(st: State, act: Action) {
    var pend := Content(st, st.pending);
    match act
    case Peek => st.reader.Peeking?
    case Send => st.reader.Sending? && |st.chan| < CHAN_SIZE
    case Pop => st.reader.Popping? && st.rest != []
    case ReadCancelled => st.reader.Sending? && st.err.Some?
    case Receive => st.buffer.Selecting? && !st.recvNil && |pend| <= MAX_WRITE_BUF_SIZE && st.chan != []
    case SeeClosed =>
      st.buffer.Selecting? && !st.recvNil && |pend| <= MAX_WRITE_BUF_SIZE && st.chan == [] && st.chanClosed
    case HandOff => st.buffer.Selecting? && pend != [] && st.writer.Receiving?
    case Swap => st.buffer.Swapping?
    case Finish => st.buffer.Selecting? && pend == [] && st.recvNil
    case BufferCancelled => st.buffer.Selecting? && !(pend == [] && st.recvNil) && st.err.Some?
    case WriteSome(n) => st.writer.Writing? && 0 < n && st.writer.off + n <= |Content(st, st.writer.buf)|
    case WriteEnd => st.writer.Writing? && st.writer.off == |Content(st, st.writer.buf)|
    case WriteFails(_) => st.writer.Writing?
    case WriteClosed => st.writer.Receiving? && st.writeClosed
  }

  /** `srcErr` is what the stream's error() returns once it is exhausted. */
  function Step(c: Config, srcErr: Option<Error>, st: State, act: Action): State
    requires Enabled(st, act)
  {
    match act
    case Peek =>
      if st.rest != [] then st.(reader := Sending(st.rest[0]))
      else
        var closed := st.(reader := ReaderDone, chanClosed := true);
        if srcErr.Some? then Fail(closed, srcErr.value) else closed
    case Send => st.(chan := st.chan + [st.reader.ei], reader := Popping)
    case Pop => st.(rest := st.rest[1..], reader := Peeking)
    case ReadCancelled => st.(reader := ReaderDone, chanClosed := true)
    case Receive =>
      var ei := st.chan[0];
      var got := st.(chan := st.chan[1..], received := st.received + [ei]);
      var pend := Content(st, st.pending);
      if RenderFails(c, ei) then
        Fail(SetContent(got, st.pending, pend + c.render(ei).text), Failure("render"))
        .(buffer := BufferDone, writeClosed := true)
      else
        SetContent(got, st.pending, pend + Shown(c, ei))
    case SeeClosed => st.(recvNil := true)
    case HandOff => st.(writer := Writing(st.pending, 0), buffer := Swapping)
    case Swap => SetContent(st, Other(st.pending), []).(pending := Other(st.pending), buffer := Selecting)
    case Finish => st.(buffer := BufferDone, writeClosed := true)
    case BufferCancelled => st.(buffer := BufferDone, writeClosed := true)
    case WriteSome(n) =>
      var off := st.writer.off;
      st.(out := st.out + Content(st, st.writer.buf)[off..off + n], writer := Writing(st.writer.buf, off + n))
    case WriteEnd => st.(writer := Receiving)
    case WriteFails(e) => Fail(st.(writer := WriterDone), e)
    case WriteClosed => st.(writer := WriterDone)
  }

  ghost predicate StepsTo(c: Config, srcErr: Option<Error>, st: State, act: Action, st': State) {
    Enabled(st, act) && st' == Step(c, srcErr, st, act)
  }

  /** A run: the states it passes through and the actions between them. */
  ghost predicate IsRun(c: Config, input: seq<EntryInfo>, srcErr: Option<Error>,
                        sts: seq<State>, acts: seq<Action>)
  {
    && |sts| == |acts| + 1
    && sts[0] == Init(input)
    && forall i :: 0 <= i < |acts| ==> StepsTo(c, srcErr, sts[i], acts[i], sts[i + 1])
  }

  predicate AllDone(st: State) {
    st.reader.ReaderDone? && st.buffer.BufferDone? && st.writer.WriterDone?
  }

  /** Bytes the writer holds and has not written. */
  function Held(st: State): Bytes
  {
    if st.writer.Writing? && st.writer.off <= |Content(st, st.writer.buf)|
    then Content(st, st.writer.buf)[st.writer.off..] else []
  }

  /** Bytes bufferWrites has handed over and the writer has not lost. */
  function Flushed(st: State): Bytes {
    st.out + Held(st)
  }

  /** Bytes bufferWrites has gathered and not handed over. */
  function Pending(st: State): Bytes {
    if st.buffer.Swapping? then [] else Content(st, st.pending)
  }

  function Unsent(st: State): seq<EntryInfo> {
    if st.reader.Popping? && st.rest != [] then st.rest[1..] else st.rest
  }

  ghost predicate ReaderInv(input: seq<EntryInfo>, srcErr: Option<Error>, st: State) {
    && input == st.received + st.chan + Unsent(st)
    && (st.reader.Popping? ==> st.rest != [])
    && (st.reader.Sending? ==> st.rest != [] && st.reader.ei == st.rest[0])
    && (st.chanClosed <==> st.reader.ReaderDone?)
    && (st.reader.ReaderDone? && st.err.None? ==> st.rest == [] && srcErr.None?)
    && |st.chan| <= CHAN_SIZE
  }

  /** Who may touch which buffer. */
  ghost predicate Ownership(st: State) {
    st.writer.Writing? ==>
      && st.writer.off <= |Content(st, st.writer.buf)|
      && st.writer.buf == (if st.buffer.Swapping? then st.pending else Other(st.pending))
  }

  ghost predicate BufferInv(c: Config, st: State) {
    && Ownership(st)
    && (st.writeClosed <==> st.buffer.BufferDone?)
    && (st.recvNil ==> st.chan == [] && st.chanClosed)
    && Flushed(st) <= ShownAll(c, st.received)
    && (!st.buffer.BufferDone? && !st.writer.WriterDone? ==>
          Flushed(st) + Pending(st) == ShownAll(c, st.received))
    && (st.buffer.BufferDone? && st.err.None? ==>
          st.recvNil && Flushed(st) == ShownAll(c, st.received))
    && (st.writer.WriterDone? && st.err.None? ==> st.buffer.BufferDone?)
    && (st.buffer.Swapping? ==> Content(st, st.pending) != [])
  }

  ghost predicate Inv(c: Config, input: seq<EntryInfo>, srcErr: Option<Error>, st: State) {
    ReaderInv(input, srcErr, st) && BufferInv(c, st)
  }

  lemma PrefixTrans<T>(a: seq<T>, b: seq<T>, x: seq<T>, y: seq<T>)
    requires a + b <= x && x <= y
    ensures a <= x && a <= y
  {
    assert a == (a + b)[..|a|];
    assert x == y[..|x|];
  }

  lemma SendMoves<T>(a: seq<T>, chan: seq<T>, rest: seq<T>)
    requires rest != []
    ensures a + chan + rest == a + (chan + [rest[0]]) + rest[1..]
  {
    assert rest == [rest[0]] + rest[1..];
  }

  lemma ReceiveMoves<T>(a: seq<T>, chan: seq<T>, rest: seq<T>)
    requires chan != []
    ensures a + chan + rest == (a + [chan[0]]) + chan[1..] + rest
  {
    assert chan == [chan[0]] + chan[1..];
    assert a + chan == (a + [chan[0]]) + chan[1..];
  }

  lemma ReaderOnSend(c: Config, input: seq<EntryInfo>, srcErr: Option<Error>, st: State)
    requires ReaderInv(input, srcErr, st) && Enabled(st, Send)
    ensures ReaderInv(input, srcErr, Step(c, srcErr, st, Send))
  {
    SendMoves(st.received, st.chan, st.rest);
    assert Unsent(st) == st.rest && Unsent(Step(c, srcErr, st, Send)) == st.rest[1..];
  }

  lemma ReaderOnReceive(c: Config, input: seq<EntryInfo>, srcErr: Option<Error>, st: State)
    requires ReaderInv(input, srcErr, st) && Enabled(st, Receive)
    ensures ReaderInv(input, srcErr, Step(c, srcErr, st, Receive))
  {
    var st' := Step(c, srcErr, st, Receive);
    ReceiveMoves(st.received, st.chan, Unsent(st));
    assert st'.rest == st.rest && st'.reader == st.reader;
    assert Unsent(st') == Unsent(st);
  }

  lemma ReaderStep(c: Config, input: seq<EntryInfo>, srcErr: Option<Error>, st: State, act: Action)
    requires ReaderInv(input, srcErr, st) && Enabled(st, act)
    ensures ReaderInv(input, srcErr, Step(c, srcErr, st, act))
  {
    if act.Send? {
      ReaderOnSend(c, input, srcErr, st);
    } else if act.Receive? {
      ReaderOnReceive(c, input, srcErr, st);
    } else {
      var st' := Step(c, srcErr, st, act);
      assert st'.received == st.received && st'.chan == st.chan;
      assert Unsent(st') == Unsent(st);
    }
  }

  lemma WriteMoves<T>(out: seq<T>, buf: seq<T>, off: nat, n: nat)
    requires off + n <= |buf|
    ensures (out + buf[off..off + n]) + buf[off + n..] == out + buf[off..]
  {
    assert buf[off..] == buf[off..off + n] + buf[off + n..];
  }

  /** A step that moves bytes from the held buffer to the output, or none at all, keeps the invariant. */
  lemma SameBytes(c: Config, st: State, st': State)
    requires BufferInv(c, st) && Ownership(st')
    requires Flushed(st') == Flushed(st) && Pending(st') == Pending(st)
    requires st' == st.(writer := st'.writer, out := st'.out)
    requires st.writer.WriterDone? <==> st'.writer.WriterDone?
    ensures BufferInv(c, st')
  {
  }

  lemma WriteSomeStep(c: Config, srcErr: Option<Error>, st: State, n: nat)
    requires BufferInv(c, st) && Enabled(st, WriteSome(n))
    ensures BufferInv(c, Step(c, srcErr, st, WriteSome(n)))
  {
    var st' := Step(c, srcErr, st, WriteSome(n));
    WriteSomeMoves(c, srcErr, st, n);
    SameBytes(c, st, st');
  }

  lemma WriteSomeMoves(c: Config, srcErr: Option<Error>, st: State, n: nat)
    requires Ownership(st) && Enabled(st, WriteSome(n))
    ensures var st' := Step(c, srcErr, st, WriteSome(n));
            && Ownership(st') && Flushed(st') == Flushed(st) && Pending(st') == Pending(st)
            && st' == st.(writer := st'.writer, out := st'.out) && st'.writer.Writing?
  {
    var st' := Step(c, srcErr, st, WriteSome(n));
    var buf, off := Content(st, st.writer.buf), st.writer.off;
    assert Content(st', st.writer.buf) == buf && Content(st', st'.pending) == Content(st, st.pending);
    WriteMoves(st.out, buf, off, n);
    assert Held(st) == buf[off..] && Held(st') == buf[off + n..];
  }

  lemma WriteFailsStep(c: Config, srcErr: Option<Error>, st: State, e: Error)
    requires BufferInv(c, st) && Enabled(st, WriteFails(e))
    ensures BufferInv(c, Step(c, srcErr, st, WriteFails(e)))
  {
    var st' := Step(c, srcErr, st, WriteFails(e));
    PrefixTrans(st.out, Held(st), ShownAll(c, st.received), ShownAll(c, st.received));
    assert Flushed(st') == st.out;
  }

  lemma WriterStep(c: Config, srcErr: Option<Error>, st: State, act: Action)
    requires BufferInv(c, st) && Enabled(st, act)
    requires act.WriteEnd? || act.WriteClosed?
    ensures BufferInv(c, Step(c, srcErr, st, act))
  {
    var st' := Step(c, srcErr, st, act);
    assert Held(st) == Held(st') == [];
    assert Flushed(st') == Flushed(st) && Pending(st') == Pending(st);
  }

  lemma HandOffMoves(c: Config, srcErr: Option<Error>, st: State)
    requires Enabled(st, HandOff)
    ensures var st' := Step(c, srcErr, st, HandOff);
            && Flushed(st') == Flushed(st) + Pending(st) && Flushed(st') + Pending(st') == Flushed(st')
            && Ownership(st')
  {
    var st' := Step(c, srcErr, st, HandOff);
    assert Held(st) == [] && Held(st') == Pending(st) && Pending(st') == [];
  }

  lemma HandOffStep(c: Config, srcErr: Option<Error>, st: State)
    requires BufferInv(c, st) && Enabled(st, HandOff)
    ensures BufferInv(c, Step(c, srcErr, st, HandOff))
  {
    HandOffMoves(c, srcErr, st);
  }

  lemma BufferStep(c: Config, srcErr: Option<Error>, st: State, act: Action)
    requires BufferInv(c, st) && Enabled(st, act)
    requires act.SeeClosed? || act.Swap? || act.Finish? || act.BufferCancelled?
    ensures BufferInv(c, Step(c, srcErr, st, act))
  {
    var st' := Step(c, srcErr, st, act);
    assert Flushed(st') == Flushed(st);
    if act.Finish? {
      assert Flushed(st) + [] == Flushed(st);
    } else if act.Swap? {
      assert Pending(st') == Pending(st) == [];
    }
  }

  lemma ReceiveFrame(c: Config, srcErr: Option<Error>, st: State)
    requires Ownership(st) && Enabled(st, Receive)
    ensures Ownership(Step(c, srcErr, st, Receive))
    ensures Flushed(Step(c, srcErr, st, Receive)) == Flushed(st)
  {
    var st' := Step(c, srcErr, st, Receive);
    assert st.writer.Writing? ==> Content(st', st.writer.buf) == Content(st, st.writer.buf);
  }

  lemma ReceiveStep(c: Config, srcErr: Option<Error>, st: State)
    requires BufferInv(c, st) && Enabled(st, Receive)
    ensures BufferInv(c, Step(c, srcErr, st, Receive))
  {
    var st' := Step(c, srcErr, st, Receive);
    var ei := st.chan[0];
    ShownAllSnoc(c, st.received, ei);
    ReceiveFrame(c, srcErr, st);
    assert st'.received == st.received + [ei];
    PrefixTrans(Flushed(st), [], ShownAll(c, st.received), ShownAll(c, st'.received));
    if !RenderFails(c, ei) {
      assert Pending(st') == Pending(st) + Shown(c, ei);
      assert Flushed(st) + Pending(st') == Flushed(st) + Pending(st) + Shown(c, ei);
    }
  }

  lemma ReadKeepsBuffers(c: Config, input: seq<EntryInfo>, srcErr: Option<Error>, st: State, act: Action)
    requires Inv(c, input, srcErr, st) && Enabled(st, act)
    requires act.Peek? || act.Send? || act.Pop? || act.ReadCancelled?
    ensures BufferInv(c, Step(c, srcErr, st, act))
  {
    var st' := Step(c, srcErr, st, act);
    assert Flushed(st') == Flushed(st) && Pending(st') == Pending(st);
  }

  lemma StepKeepsInv(c: Config, input: seq<EntryInfo>, srcErr: Option<Error>, st: State, act: Action)
    requires Inv(c, input, srcErr, st) && Enabled(st, act)
    ensures Inv(c, input, srcErr, Step(c, srcErr, st, act))
  {
    ReaderStep(c, input, srcErr, st, act);
    match act
    case Receive => ReceiveStep(c, srcErr, st);
    case HandOff => HandOffStep(c, srcErr, st);
    case SeeClosed | Swap | Finish | BufferCancelled => BufferStep(c, srcErr, st, act);
    case WriteSome(n) => WriteSomeStep(c, srcErr, st, n);
    case WriteFails(e) => WriteFailsStep(c, srcErr, st, e);
    case WriteEnd | WriteClosed => WriterStep(c, srcErr, st, act);
    case Peek | Send | Pop | ReadCancelled => ReadKeepsBuffers(c, input, srcErr, st, act);
  }

  /** Every state of every interleaving satisfies the invariant. */
  lemma {:induction false} RunKeepsInv(c: Config, input: seq<EntryInfo>, srcErr: Option<Error>,
                                       sts: seq<State>, acts: seq<Action>, k: nat)
    requires IsRun(c, input, srcErr, sts, acts) && k <= |acts|
    ensures Inv(c, input, srcErr, sts[k])
  {
    if k > 0 {
      RunKeepsInv(c, input, srcErr, sts, acts, k - 1);
      assert StepsTo(c, srcErr, sts[k - 1], acts[k - 1], sts[k]);
      StepKeepsInv(c, input, srcErr, sts[k - 1], acts[k - 1]);
    }
  }

  lemma OutIsPrefix(c: Config, input: seq<EntryInfo>, srcErr: Option<Error>, st: State)
    requires Inv(c, input, srcErr, st)
    ensures st.out <= ShownAll(c, input)
  {
    var n := |st.received|;
    assert input[..n] == st.received && input[..|input|] == input;
    ShownAllPrefix(c, input, n, |input|);
    PrefixTrans(st.out, Held(st), ShownAll(c, st.received), ShownAll(c, input));
  }

  /** bytes written ++ bytes held ++ pending is what the consumed entries show. */
  lemma Conservation(c: Config, input: seq<EntryInfo>, srcErr: Option<Error>,
                     sts: seq<State>, acts: seq<Action>, k: nat)
    requires IsRun(c, input, srcErr, sts, acts) && k <= |acts|
    ensures input == sts[k].received + sts[k].chan + Unsent(sts[k])
    ensures !sts[k].buffer.BufferDone? && !sts[k].writer.WriterDone? ==>
              sts[k].out + Held(sts[k]) + Pending(sts[k]) == ShownAll(c, sts[k].received)
    ensures sts[k].out <= ShownAll(c, input)
  {
    RunKeepsInv(c, input, srcErr, sts, acts, k);
    OutIsPrefix(c, input, srcErr, sts[k]);
  }

  /** The writer never holds the buffer being reset, nor the one being appended to. */
  lemma NoSharedBuffer(c: Config, input: seq<EntryInfo>, srcErr: Option<Error>,
                       sts: seq<State>, acts: seq<Action>, k: nat)
    requires IsRun(c, input, srcErr, sts, acts) && k < |acts|
    requires sts[k].writer.Writing?
    ensures acts[k].Swap? ==> sts[k].writer.buf != Other(sts[k].pending)
    ensures acts[k].Receive? ==> sts[k].writer.buf != sts[k].pending
  {
    RunKeepsInv(c, input, srcErr, sts, acts, k);
    assert StepsTo(c, srcErr, sts[k], acts[k], sts[k + 1]);
  }

  lemma DoneAndNoError(c: Config, input: seq<EntryInfo>, srcErr: Option<Error>, st: State)
    requires Inv(c, input, srcErr, st) && AllDone(st) && st.err.None?
    ensures srcErr.None? && st.received == input && st.out == ShownAll(c, input)
  {
    assert Flushed(st) == st.out;
    assert st.chan == [] && Unsent(st) == [];
    assert st.received + [] + [] == st.received;
  }

  /** A run that ended without an error wrote everything; one that ended with an error wrote a prefix. */
  lemma CompleteOutput(c: Config, input: seq<EntryInfo>, srcErr: Option<Error>,
                       sts: seq<State>, acts: seq<Action>, k: nat)
    requires IsRun(c, input, srcErr, sts, acts) && k <= |acts|
    requires AllDone(sts[k])
    ensures sts[k].err.None? ==> srcErr.None? && sts[k].received == input && sts[k].out == ShownAll(c, input)
    ensures sts[k].out <= ShownAll(c, input)
  {
    RunKeepsInv(c, input, srcErr, sts, acts, k);
    OutIsPrefix(c, input, srcErr, sts[k]);
    if sts[k].err.None? {
      DoneAndNoError(c, input, srcErr, sts[k]);
    }
  }

  /** The group fails only because the stream, a rendering or a write failed. */
  lemma {:induction false} ErrorHasCause(c: Config, input: seq<EntryInfo>, srcErr: Option<Error>,
                                         sts: seq<State>, acts: seq<Action>, k: nat)
    requires IsRun(c, input, srcErr, sts, acts) && k <= |acts|
    requires srcErr.None?
    requires forall ei :: ei in input ==> !RenderFails(c, ei)
    requires forall i :: 0 <= i < k ==> !acts[i].WriteFails?
    ensures sts[k].err.None?
  {
    if k > 0 {
      ErrorHasCause(c, input, srcErr, sts, acts, k - 1);
      RunKeepsInv(c, input, srcErr, sts, acts, k - 1);
      assert StepsTo(c, srcErr, sts[k - 1], acts[k - 1], sts[k]);
      if acts[k - 1].Receive? {
        assert input[|sts[k - 1].received|] == sts[k - 1].chan[0];
      }
    }
  }

  /** No reachable state is stuck: all three goroutines returned, or one can move without a write failing. */
  lemma NoDeadlock(c: Config, input: seq<EntryInfo>, srcErr: Option<Error>,
                   sts: seq<State>, acts: seq<Action>, k: nat)
    requires IsRun(c, input, srcErr, sts, acts) && k <= |acts|
    ensures AllDone(sts[k]) || exists act :: Enabled(sts[k], act) && !act.WriteFails?
  {
    RunKeepsInv(c, input, srcErr, sts, acts, k);
    if !AllDone(sts[k]) {
      var act := SomeEnabled(c, input, srcErr, sts[k]);
    }
  }

  lemma SomeEnabled(c: Config, input: seq<EntryInfo>, srcErr: Option<Error>, st: State) returns (act: Action)
    requires Inv(c, input, srcErr, st) && !AllDone(st)
    ensures Enabled(st, act) && !act.WriteFails?
  {
    if st.writer.Writing? {
      var left := |Content(st, st.writer.buf)| - st.writer.off;
      act := if left > 0 then WriteSome(left) else WriteEnd;
    } else if st.buffer.Swapping? {
      act := Swap;
    } else if st.writer.Receiving? && st.writeClosed {
      act := WriteClosed;
    } else if st.reader.Peeking? {
      act := Peek;
    } else if st.reader.Popping? {
      act := Pop;
    } else if st.reader.Sending? && st.err.Some? {
      act := ReadCancelled;
    } else if st.reader.Sending? && |st.chan| < CHAN_SIZE {
      act := Send;
    } else if st.err.Some? {
      act := if Content(st, st.pending) == [] && st.recvNil then Finish else BufferCancelled;
    } else if Content(st, st.pending) != [] {
      act := HandOff;
    } else if st.recvNil {
      act := Finish;
    } else if st.chan != [] {
      act := Receive;
    } else {
      act := SeeClosed;
    }
  }

  /** Steps the pipeline still owes for entries bufferWrites has not taken. */
  function EntryCost(c: Config, eis: seq<EntryInfo>): nat {
    if eis == [] then 0 else 1 + 5 * |Shown(c, eis[0])| + EntryCost(c, eis[1..])
  }

  lemma {:induction false} EntryCostSnoc(c: Config, eis: seq<EntryInfo>, ei: EntryInfo)
    ensures EntryCost(c, eis + [ei]) == EntryCost(c, eis) + 1 + 5 * |Shown(c, ei)|
  {
    if eis == [] {
      assert [ei][1..] == [];
      assert eis + [ei] == [ei];
    } else {
      assert (eis + [ei])[1..] == eis[1..] + [ei];
      EntryCostSnoc(c, eis[1..], ei);
    }
  }

  function ReaderWork(st: State): int {
    match st.reader
    case Peeking => 3 * |st.rest| + 1
    case Sending(_) => 3 * |st.rest|
    case Popping => 3 * |st.rest| - 1
    case ReaderDone => 0
  }

  function BufferWork(st: State): int {
    match st.buffer
    case Selecting => (if st.recvNil then 2 else 3) + 5 * |Pending(st)|
    case Swapping => if st.recvNil then 3 else 4
    case BufferDone => 0
  }

  function WriterWork(st: State): int {
    match st.writer
    case Receiving => 1
    case Writing(_, _) => 2 + |Held(st)|
    case WriterDone => 0
  }

  /** An upper bound on the steps left. */
  function Work(c: Config, st: State): int {
    EntryCost(c, st.chan) + EntryCost(c, Unsent(st)) + ReaderWork(st) + BufferWork(st) + WriterWork(st)
  }

  lemma ReadingWorks(c: Config, input: seq<EntryInfo>, srcErr: Option<Error>, st: State, act: Action)
    requires Inv(c, input, srcErr, st) && Enabled(st, act)
    requires act.Peek? || act.Send? || act.Pop? || act.ReadCancelled?
    ensures Work(c, Step(c, srcErr, st, act)) < Work(c, st)
  {
    var st' := Step(c, srcErr, st, act);
    assert BufferWork(st') == BufferWork(st) && WriterWork(st') == WriterWork(st);
    if act.Send? {
      EntryCostSnoc(c, st.chan, st.rest[0]);
    } else {
      assert Unsent(st') == Unsent(st);
    }
  }

  lemma ReceivingWorks(c: Config, input: seq<EntryInfo>, srcErr: Option<Error>, st: State)
    requires Inv(c, input, srcErr, st) && Enabled(st, Receive)
    ensures Work(c, Step(c, srcErr, st, Receive)) < Work(c, st)
  {
    var st' := Step(c, srcErr, st, Receive);
    assert Unsent(st') == Unsent(st) && ReaderWork(st') == ReaderWork(st);
    assert WriterWork(st') == WriterWork(st) by {
      assert st.writer.Writing? ==> Content(st', st.writer.buf) == Content(st, st.writer.buf);
    }
    assert EntryCost(c, st.chan) == 1 + 5 * |Shown(c, st.chan[0])| + EntryCost(c, st'.chan);
    if !RenderFails(c, st.chan[0]) {
      assert Pending(st') == Pending(st) + Shown(c, st.chan[0]);
    }
  }

  lemma SwappingWorks(c: Config, input: seq<EntryInfo>, srcErr: Option<Error>, st: State, act: Action)
    requires Inv(c, input, srcErr, st) && Enabled(st, act)
    requires act.Swap? || act.HandOff?
    ensures Work(c, Step(c, srcErr, st, act)) < Work(c, st)
  {
    var st' := Step(c, srcErr, st, act);
    assert Unsent(st') == Unsent(st) && ReaderWork(st') == ReaderWork(st) && st'.chan == st.chan;
    if act.Swap? {
      assert WriterWork(st') == WriterWork(st) by {
        assert st.writer.Writing? ==> Content(st', st.writer.buf) == Content(st, st.writer.buf);
      }
    } else {
      assert |Held(st')| == |Pending(st)|;
    }
  }

  lemma ClosingWorks(c: Config, input: seq<EntryInfo>, srcErr: Option<Error>, st: State, act: Action)
    requires Inv(c, input, srcErr, st) && Enabled(st, act)
    requires act.SeeClosed? || act.Finish? || act.BufferCancelled?
    ensures Work(c, Step(c, srcErr, st, act)) < Work(c, st)
  {
    var st' := Step(c, srcErr, st, act);
    assert Unsent(st') == Unsent(st) && ReaderWork(st') == ReaderWork(st) && st'.chan == st.chan;
    assert WriterWork(st') == WriterWork(st);
  }

  lemma WritingWorks(c: Config, input: seq<EntryInfo>, srcErr: Option<Error>, st: State, act: Action)
    requires Inv(c, input, srcErr, st) && Enabled(st, act)
    requires act.WriteSome? || act.WriteEnd? || act.WriteFails? || act.WriteClosed?
    ensures Work(c, Step(c, srcErr, st, act)) < Work(c, st)
  {
    var st' := Step(c, srcErr, st, act);
    assert Unsent(st') == Unsent(st) && ReaderWork(st') == ReaderWork(st) && st'.chan == st.chan;
    assert BufferWork(st') == BufferWork(st);
  }

  lemma StepWorks(c: Config, input: seq<EntryInfo>, srcErr: Option<Error>, st: State, act: Action)
    requires Inv(c, input, srcErr, st) && Enabled(st, act)
    ensures Work(c, Step(c, srcErr, st, act)) < Work(c, st)
  {
    match act
    case Receive => ReceivingWorks(c, input, srcErr, st);
    case Peek | Send | Pop | ReadCancelled => ReadingWorks(c, input, srcErr, st, act);
    case Swap | HandOff => SwappingWorks(c, input, srcErr, st, act);
    case SeeClosed | Finish | BufferCancelled => ClosingWorks(c, input, srcErr, st, act);
    case _ => WritingWorks(c, input, srcErr, st, act);
  }

  lemma WorkIsNatural(c: Config, input: seq<EntryInfo>, srcErr: Option<Error>, st: State)
    requires Inv(c, input, srcErr, st)
    ensures Work(c, st) >= 0
  {
  }

  lemma RunStepWorks(c: Config, input: seq<EntryInfo>, srcErr: Option<Error>,
                     sts: seq<State>, acts: seq<Action>, k: nat)
    requires IsRun(c, input, srcErr, sts, acts) && k < |acts|
    ensures Work(c, sts[k + 1]) < Work(c, sts[k])
  {
    assert StepsTo(c, srcErr, sts[k], acts[k], sts[k + 1]);
    RunKeepsInv(c, input, srcErr, sts, acts, k);
    StepWorks(c, input, srcErr, sts[k], acts[k]);
  }

  lemma {:induction false} Descends(ws: seq<int>, k: nat)
    requires k < |ws| && forall i :: 0 <= i < |ws| - 1 ==> ws[i + 1] < ws[i]
    ensures k + ws[k] <= ws[0]
  {
    if k > 0 {
      Descends(ws, k - 1);
      assert ws[k - 1 + 1] < ws[k - 1];
    }
  }

  lemma StepsBounded(c: Config, input: seq<EntryInfo>, srcErr: Option<Error>,
                     sts: seq<State>, acts: seq<Action>, k: nat)
    requires IsRun(c, input, srcErr, sts, acts) && k <= |acts|
    ensures k + Work(c, sts[k]) <= Work(c, sts[0])
  {
    var ws := seq(|sts|, i requires 0 <= i < |sts| => Work(c, sts[i]));
    forall i | 0 <= i < |acts|
      ensures ws[i + 1] < ws[i]
    {
      RunStepWorks(c, input, srcErr, sts, acts, i);
    }
    Descends(ws, k);
  }

  /**
   * Every run is finite, with a bound known from the input; with NoDeadlock,
   * every run that goes on while it can ends with all goroutines returned.
   */
  lemma RunsAreFinite(c: Config, input: seq<EntryInfo>, srcErr: Option<Error>,
                      sts: seq<State>, acts: seq<Action>)
    requires IsRun(c, input, srcErr, sts, acts)
    ensures |acts| <= EntryCost(c, input) + 3 * |input| + 5
  {
    StepsBounded(c, input, srcErr, sts, acts, |acts|);
    RunKeepsInv(c, input, srcErr, sts, acts, |acts|);
    WorkIsNatural(c, input, srcErr, sts[|acts|]);
  }

  /** No entry adds more than `most` bytes. */
  ghost predicate EntriesAdd(c: Config, input: seq<EntryInfo>, most: nat) {
    forall ei :: ei in input ==> |c.render(ei).text| <= most && |Shown(c, ei)| <= most
  }

  predicate BuffersWithin(st: State, most: nat) {
    |st.a| <= 262144 + most && |st.b| <= 262144 + most
  }

  /**
   * Memory stays bounded: the channel holds at most 65536 entries, and a buffer at
   * most 262144 bytes and what one more entry can add.
   */
  lemma {:induction false} BuffersBounded(c: Config, input: seq<EntryInfo>, srcErr: Option<Error>,
                                          sts: seq<State>, acts: seq<Action>, k: nat, most: nat)
    requires IsRun(c, input, srcErr, sts, acts) && k <= |acts| && EntriesAdd(c, input, most)
    ensures |sts[k].chan| <= 65536 && FromInput(sts[k], input) && BuffersWithin(sts[k], most)
  {
    RunKeepsInv(c, input, srcErr, sts, acts, k);
    ReaderBounds(input, srcErr, sts[k]);
    if k > 0 {
      BuffersBounded(c, input, srcErr, sts, acts, k - 1, most);
      assert StepsTo(c, srcErr, sts[k - 1], acts[k - 1], sts[k]);
      BufferGrows(c, input, srcErr, sts[k - 1], acts[k - 1], most);
    }
  }

  lemma ReaderBounds(input: seq<EntryInfo>, srcErr: Option<Error>, st: State)
    requires ReaderInv(input, srcErr, st)
    ensures |st.chan| <= 65536 && FromInput(st, input)
  {
    if st.chan != [] {
      assert st.chan[0] in st.received + st.chan + Unsent(st);
    }
  }

  /** The next entry to receive is one of the input. */
  ghost predicate FromInput(st: State, input: seq<EntryInfo>) {
    st.chan != [] ==> st.chan[0] in input
  }

  lemma BufferGrows(c: Config, input: seq<EntryInfo>, srcErr: Option<Error>, st: State, act: Action, most: nat)
    requires FromInput(st, input) && Enabled(st, act) && EntriesAdd(c, input, most) && BuffersWithin(st, most)
    ensures BuffersWithin(Step(c, srcErr, st, act), most)
  {
  }

  /** The error is that of the stream, of a rendering or of a write that failed. */
  ghost predicate IsCause(c: Config, input: seq<EntryInfo>, srcErr: Option<Error>, acts: seq<Action>, k: nat, e: Error)
    requires k <= |acts|
  {
    || srcErr == Some(e)
    || (e == Failure("render") && exists ei :: ei in input && RenderFails(c, ei))
    || exists i :: 0 <= i < k && acts[i] == WriteFails(e)
  }

  /** A step leaves the error as it is, or sets it to what failed in the step. */
  ghost predicate ErrorStep(c: Config, input: seq<EntryInfo>, srcErr: Option<Error>,
                            st: State, act: Action, st': State)
  {
    || st'.err == st.err
    || (st'.err.Some? &&
        (|| st'.err == srcErr
         || (st'.err.value == Failure("render") && exists ei :: ei in input && RenderFails(c, ei))
         || act == WriteFails(st'.err.value)))
  }

  lemma StepsError(c: Config, input: seq<EntryInfo>, srcErr: Option<Error>, st: State, act: Action)
    requires FromInput(st, input) && Enabled(st, act)
    ensures ErrorStep(c, input, srcErr, st, act, Step(c, srcErr, st, act))
  {
  }

  lemma RunStepsError(c: Config, input: seq<EntryInfo>, srcErr: Option<Error>,
                      sts: seq<State>, acts: seq<Action>, k: nat)
    requires IsRun(c, input, srcErr, sts, acts) && k < |acts|
    ensures ErrorStep(c, input, srcErr, sts[k], acts[k], sts[k + 1])
  {
    RunKeepsInv(c, input, srcErr, sts, acts, k);
    ReaderBounds(input, srcErr, sts[k]);
    assert StepsTo(c, srcErr, sts[k], acts[k], sts[k + 1]);
    StepsError(c, input, srcErr, sts[k], acts[k]);
  }

  /** Whatever error the group reports, that is what failed. */
  lemma {:induction false} ErrorIsCause(c: Config, input: seq<EntryInfo>, srcErr: Option<Error>,
                                        sts: seq<State>, acts: seq<Action>, k: nat)
    requires IsRun(c, input, srcErr, sts, acts) && k <= |acts|
    ensures sts[k].err.Some? ==> IsCause(c, input, srcErr, acts, k, sts[k].err.value)
  {
    if k > 0 {
      ErrorIsCause(c, input, srcErr, sts, acts, k - 1);
      RunStepsError(c, input, srcErr, sts, acts, k - 1);
    }
  }
}
