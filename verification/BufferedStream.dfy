/**
 * The streams that decouple the merge from slow files: of each file the first
 * entry is taken eagerly, and a producer goroutine that fills a bounded channel
 * is only started when the consumer asks for a second one. All streams share one
 * context, which is cancelled once a producer has returned an error; a producer
 * that then waits to send may give up. Steps interleave freely.
 */
module BufferedStream {
  import opened Common
  import opened LogEntry

  const READ_CHAN_SIZE := 512

  /** Finished after popping the end of the wrapped stream, or gave up because of the context. */
  datatype Producer = NotStarted | Popping | Sending(e: Entry) | Finished | GaveUp

  datatype Buffered = Buffered(
    inner: seq<Entry>,        // what the wrapped stream still holds
    failure: Option<Error>,   // how the wrapped stream will end; None for io.EOF
    err: Option<Error>,       // the wrapped stream's error so far; None for nil and io.EOF
    producer: Producer,
    chan: seq<Entry>,
    e: Entry,
    ok: bool,
    read: bool,
    delivered: seq<Entry>)    // history of the entries popped

  datatype State = State(streams: seq<Buffered>, cancelled: bool)

  datatype Act = Start | Take | Pop | Fetch | Send | GiveUp

  datatype Action = On(i: nat, act: Act) | Cancel

  /** newBufferedLogStream: peek once, then pop. */
  function Wrapped(src: Stream): Buffered {
    if src.rest == [] then Buffered([], src.failure, src.failure, NotStarted, [], ZERO, false, true, [])
    else Buffered(src.rest[1..], src.failure, None, NotStarted, [], src.rest[0], true, true, [])
  }

  /** A call to peek or pop has to wait for the channel. */
  predicate Waiting(b: Buffered) {
    b.ok && !b.read
  }

  /** The producer has returned, which closes the channel. */
  predicate Done(b: Buffered) {
    b.producer.Finished? || b.producer.GaveUp?
  }

  /** The producer has returned an error. */
  predicate Failed(b: Buffered) {
    b.producer.Finished? && b.failure.Some?
  }

  predicate EnabledOn(b: Buffered, act: Act, cancelled: bool) {
    match act
    case Start => Waiting(b) && b.producer.NotStarted?
    case Take => Waiting(b) && !b.producer.NotStarted? && (b.chan != [] || Done(b))
    case Pop => !Waiting(b)
    case Fetch => b.producer.Popping?
    case Send => b.producer.Sending? && |b.chan| < READ_CHAN_SIZE
    case GiveUp => b.producer.Sending? && cancelled
  }

  function StepOn(b: Buffered, act: Act): Buffered
    requires EnabledOn(b, act, true)
  {
    match act
    case Start => b.(producer := Popping)
    case Take =>
      if b.chan != [] then b.(e := b.chan[0], ok := true, read := true, chan := b.chan[1..])
      else b.(e := ZERO, ok := false, read := true)
    case Pop => b.(read := false, delivered := if b.ok then b.delivered + [b.e] else b.delivered)
    case Fetch =>
      if b.inner == [] then b.(producer := Finished, err := b.failure)
      else b.(inner := b.inner[1..], producer := Sending(b.inner[0]))
    case Send => b.(chan := b.chan + [b.producer.e], producer := Popping)
    case GiveUp => b.(producer := GaveUp)
  }

  /** Nothing but a returned error cancels the context. */
  predicate Enabled(st: State, act: Action) {
    match act
    case On(i, a) => i < |st.streams| && EnabledOn(st.streams[i], a, st.cancelled)
    case Cancel => exists i :: 0 <= i < |st.streams| && Failed(st.streams[i])
  }

  function Step(st: State, act: Action): State
    requires Enabled(st, act)
  {
    match act
    case On(i, a) => st.(streams := st.streams[i := StepOn(st.streams[i], a)])
    case Cancel => st.(cancelled := true)
  }

  /**
   * The state after some actions. An action that cannot happen when its turn
   * comes is passed over, so every run is given by some sequence of actions.
   */
  function After(srcs: seq<Stream>, acts: seq<Action>): (st: State)
    ensures |st.streams| == |srcs|
  {
    if acts == [] then State(seq(|srcs|, i requires 0 <= i < |srcs| => Wrapped(srcs[i])), false)
    else
      var st, act := After(srcs, acts[..|acts| - 1]), acts[|acts| - 1];
      if Enabled(st, act) then Step(st, act) else st
  }

  /** The entry peek has in hand. */
  function Current(b: Buffered): seq<Entry> {
    if b.ok && b.read then [b.e] else []
  }

  function InHand(b: Buffered): seq<Entry> {
    if b.producer.Sending? then [b.producer.e] else []
  }

  /** Entries that have reached the consumer or its channel. */
  function Committed(b: Buffered): seq<Entry> {
    b.delivered + Current(b) + b.chan
  }

  ghost predicate InvOn(src: Stream, b: Buffered, cancelled: bool) {
    && b.failure == src.failure
    && Committed(b) <= src.rest
    && (!b.producer.GaveUp? ==> Committed(b) + InHand(b) + b.inner == src.rest)
    && (b.producer.NotStarted? ==> b.chan == [])
    && (b.producer.Finished? ==> b.inner == [] && b.err == src.failure)
    && (b.producer.GaveUp? ==> cancelled && |Committed(b)| < |src.rest|)
    && (!b.producer.Finished? && src.rest != [] ==> b.err.None?)
    && (!b.ok ==> b.chan == [] && (Done(b) || src.rest == []))
    && (src.rest == [] ==> b.producer.NotStarted? && !b.ok && b.err == src.failure)
    && |b.chan| <= READ_CHAN_SIZE
    && (!b.producer.NotStarted? ==> b.delivered != [])
    && (src.rest != [] && b.delivered == [] ==> b.read && b.ok)
  }

  /** A cancelled context has a producer that returned an error. */
  ghost predicate Inv(srcs: seq<Stream>, st: State)
    requires |st.streams| == |srcs|
  {
    && (forall i :: 0 <= i < |srcs| ==> InvOn(srcs[i], st.streams[i], st.cancelled))
    && (st.cancelled ==> exists i :: 0 <= i < |srcs| && Failed(st.streams[i]))
  }

  lemma Regroup<T>(a: seq<T>, x: seq<T>, b: seq<T>, c: seq<T>)
    ensures a + x + b + c == a + (x + (b + c)) && a + x + b + [] == a + x + b
    ensures a + x + b == a + (x + b)
  {
  }

  /** Taking from the channel and popping move entries on within what is committed; sending adds to it. */
  lemma StepCommits(src: Stream, b: Buffered, act: Act, cancelled: bool)
    requires InvOn(src, b, cancelled) && EnabledOn(b, act, cancelled)
    ensures Committed(StepOn(b, act)) == Committed(b) + if act.Send? then InHand(b) else []
    ensures Done(b) ==> StepOn(b, act).producer == b.producer && !act.Send?
  {
    var b' := StepOn(b, act);
    Regroup(b.delivered, Current(b), b.chan, InHand(b));
    match act
    case Take =>
      if b.chan != [] {
        assert b.chan == [b.chan[0]] + b.chan[1..];
        Regroup(b.delivered, Current(b'), b'.chan, []);
      }
    case Pop => assert b'.delivered == b.delivered + Current(b) && Current(b') == [];
    case Send => Regroup(b.delivered + Current(b), b.chan, InHand(b), []);
    case _ =>
  }

  lemma FetchMoves<T>(done: seq<T>, inner: seq<T>)
    requires inner != []
    ensures done + [inner[0]] + inner[1..] == done + [] + inner
  {
    assert inner == [inner[0]] + inner[1..];
  }

  lemma SendMoves<T>(done: seq<T>, hand: seq<T>, inner: seq<T>)
    ensures (done + hand) + [] + inner == done + hand + inner
    ensures done + hand <= done + hand + inner
  {
  }

  lemma StepKeepsEntries(src: Stream, b: Buffered, act: Act, cancelled: bool)
    requires InvOn(src, b, cancelled) && EnabledOn(b, act, cancelled)
    ensures var b' := StepOn(b, act);
            && Committed(b') <= src.rest
            && (!b'.producer.GaveUp? ==> Committed(b') + InHand(b') + b'.inner == src.rest)
            && (b'.producer.GaveUp? ==> |Committed(b')| < |src.rest|)
  {
    StepCommits(src, b, act, cancelled);
    if act.Send? {
      SendMoves(Committed(b), InHand(b), b.inner);
    } else {
      assert Committed(b) + [] == Committed(b);
      if act.Fetch? && b.inner != [] {
        FetchMoves(Committed(b), b.inner);
      }
    }
  }

  lemma StepOnKeepsInv(src: Stream, b: Buffered, act: Act, cancelled: bool)
    requires InvOn(src, b, cancelled) && EnabledOn(b, act, cancelled)
    ensures InvOn(src, StepOn(b, act), cancelled)
  {
    StepKeepsEntries(src, b, act, cancelled);
    assert act.Pop? && b.ok ==> StepOn(b, act).delivered != [];
  }

  lemma StepKeepsFailed(srcs: seq<Stream>, st: State, i: nat, act: Act)
    requires |st.streams| == |srcs| && Inv(srcs, st) && Enabled(st, On(i, act)) && st.cancelled
    ensures exists j :: 0 <= j < |srcs| && Failed(Step(st, On(i, act)).streams[j])
  {
    var j :| 0 <= j < |srcs| && Failed(st.streams[j]);
    StepCommits(srcs[i], st.streams[i], act, st.cancelled);
    assert Failed(Step(st, On(i, act)).streams[j]);
  }

  lemma StepKeepsInv(srcs: seq<Stream>, st: State, act: Action)
    requires |st.streams| == |srcs| && Inv(srcs, st) && Enabled(st, act)
    ensures Inv(srcs, Step(st, act))
  {
    match act
    case On(i, a) =>
      StepOnKeepsInv(srcs[i], st.streams[i], a, st.cancelled);
      if st.cancelled {
        StepKeepsFailed(srcs, st, i, a);
      }
    case Cancel =>
      forall i | 0 <= i < |srcs|
        ensures InvOn(srcs[i], st.streams[i], true)
      {
        assert InvOn(srcs[i], st.streams[i], st.cancelled);
      }
  }

  lemma {:induction false} AfterKeepsInv(srcs: seq<Stream>, acts: seq<Action>)
    ensures Inv(srcs, After(srcs, acts))
  {
    if acts == [] {
      var st := After(srcs, acts);
      forall i | 0 <= i < |srcs|
        ensures InvOn(srcs[i], st.streams[i], false)
      {
        assert srcs[i].rest != [] ==> srcs[i].rest == [srcs[i].rest[0]] + srcs[i].rest[1..];
      }
    } else {
      var before, act := acts[..|acts| - 1], acts[|acts| - 1];
      AfterKeepsInv(srcs, before);
      if Enabled(After(srcs, before), act) {
        StepKeepsInv(srcs, After(srcs, before), act);
      }
    }
  }

  /**
   * In every run the consumer of a stream has received a prefix of its source, in
   * order and without repetition. Once it sees the end, the producer no longer
   * uses the wrapped stream; unless the context was cancelled, the consumer has
   * received the whole source, and the error it reads is the source's.
   */
  lemma DeliversSource(srcs: seq<Stream>, acts: seq<Action>, i: nat)
    requires i < |srcs|
    ensures var b := After(srcs, acts).streams[i];
            && b.delivered + Current(b) <= srcs[i].rest
            && (!b.ok ==> Done(b) || b.producer.NotStarted?)
            && (!b.ok && !After(srcs, acts).cancelled ==> b.delivered == srcs[i].rest && b.err == srcs[i].failure)
  {
    AfterKeepsInv(srcs, acts);
    var b := After(srcs, acts).streams[i];
    assert b.delivered + Current(b) <= Committed(b);
  }

  /** No goroutine exists before the first pop. */
  lemma LazyProducer(srcs: seq<Stream>, acts: seq<Action>, i: nat)
    requires i < |srcs| && After(srcs, acts).streams[i].delivered == []
    ensures After(srcs, acts).streams[i].producer.NotStarted?
  {
    AfterKeepsInv(srcs, acts);
  }

  /** A stream's channel holds at most 512 entries. */
  lemma ChannelBounded(srcs: seq<Stream>, acts: seq<Action>, i: nat)
    requires i < |srcs|
    ensures |After(srcs, acts).streams[i].chan| <= 512
  {
    AfterKeepsInv(srcs, acts);
  }

  /** A consumer waiting for a stream is never stuck: a step of that stream can happen. */
  lemma NoDeadlock(srcs: seq<Stream>, acts: seq<Action>, i: nat)
    requires i < |srcs| && Waiting(After(srcs, acts).streams[i])
    ensures exists act :: Enabled(After(srcs, acts), On(i, act))
  {
    AfterKeepsInv(srcs, acts);
    var st := After(srcs, acts);
    var b := st.streams[i];
    var act :=
      if b.producer.NotStarted? then Start
      else if b.chan != [] || Done(b) then Take
      else if b.producer.Popping? then Fetch else Send;
    assert Enabled(st, On(i, act));
  }

  /** The steps a stream can still make, other than pops. */
  function Work(b: Buffered): nat {
    3 * |b.inner| + |b.chan|
    + (if b.producer.NotStarted? then 1 else if b.producer.Sending? then 2 else 0)
    + (if Done(b) then 0 else 1)
    + (if b.ok then 1 else 0)
  }

  /** How often, within the actions, the stream made a step other than a pop. */
  function StepsMade(srcs: seq<Stream>, acts: seq<Action>, i: nat): nat {
    if acts == [] then 0
    else
      var before, act := acts[..|acts| - 1], acts[|acts| - 1];
      StepsMade(srcs, before, i)
      + if act.On? && act.i == i && act.act != Pop && Enabled(After(srcs, before), act) then 1 else 0
  }

  /**
   * In every run a stream makes at most three steps for each of its entries, so a
   * waiting consumer, whose stream can always make one, gets its answer.
   */
  lemma {:induction false} StepsAreBounded(srcs: seq<Stream>, acts: seq<Action>, i: nat)
    requires i < |srcs| && srcs[i].rest != []
    ensures StepsMade(srcs, acts, i) + Work(After(srcs, acts).streams[i]) <= 3 * |srcs[i].rest|
  {
    if acts != [] {
      StepsAreBounded(srcs, acts[..|acts| - 1], i);
    }
  }

  /** What the consumer gets to see of a stream in the end, as a stream of its own. */
  function Observed(b: Buffered, file: nat): Stream {
    if b.producer.GaveUp? then Stream(file, Committed(b), None)
    else Stream(file, Committed(b) + InHand(b) + b.inner, b.failure)
  }

  function Observe(srcs: seq<Stream>, acts: seq<Action>): (obs: seq<Stream>)
    ensures |obs| == |srcs|
  {
    var st := After(srcs, acts);
    seq(|srcs|, i requires 0 <= i < |srcs| => Observed(st.streams[i], srcs[i].file))
  }

  /**
   * Every stream is seen whole, with its own failure, unless it was cut short
   * after a proper, non-empty prefix and without a failure; and streams are only cut short when
   * another one fails and is seen whole.
   */
  ghost predicate Fair(srcs: seq<Stream>, obs: seq<Stream>) {
    && |obs| == |srcs|
    && forall i :: 0 <= i < |srcs| ==> obs[i] == srcs[i] || (CutShort(srcs[i], obs[i]) && SomeWholeFailure(srcs, obs))
  }

  ghost predicate CutShort(src: Stream, seen: Stream) {
    seen.file == src.file && seen.rest != [] && seen.rest < src.rest && seen.failure.None?
  }

  ghost predicate SomeWholeFailure(srcs: seq<Stream>, obs: seq<Stream>)
    requires |obs| == |srcs|
  {
    exists i :: 0 <= i < |srcs| && srcs[i].failure.Some? && obs[i] == srcs[i]
  }

  lemma ObservedIsSource(src: Stream, b: Buffered, cancelled: bool)
    requires InvOn(src, b, cancelled)
    ensures !b.producer.GaveUp? ==> Observed(b, src.file) == src
    ensures b.producer.GaveUp? ==> cancelled && CutShort(src, Observed(b, src.file))
  {
    assert b.delivered != [] ==> Committed(b)[0] == b.delivered[0];
  }

  /** In every run the streams are seen fairly. */
  lemma ObserveIsFair(srcs: seq<Stream>, acts: seq<Action>)
    ensures Fair(srcs, Observe(srcs, acts))
  {
    AfterKeepsInv(srcs, acts);
    var st, obs := After(srcs, acts), Observe(srcs, acts);
    if st.cancelled {
      var j :| 0 <= j < |srcs| && Failed(st.streams[j]);
      ObservedIsSource(srcs[j], st.streams[j], st.cancelled);
      assert SomeWholeFailure(srcs, obs);
    }
    forall i | 0 <= i < |srcs|
      ensures obs[i] == srcs[i] || (CutShort(srcs[i], obs[i]) && SomeWholeFailure(srcs, obs))
    {
      ObservedIsSource(srcs[i], st.streams[i], st.cancelled);
    }
  }

  lemma AfterSnoc(srcs: seq<Stream>, acts: seq<Action>, act: Action)
    requires Enabled(After(srcs, acts), act)
    ensures After(srcs, acts + [act]) == Step(After(srcs, acts), act)
  {
    assert (acts + [act])[..|acts|] == acts;
  }

  /** The stream has a second entry to lose, and another one fails after yielding something. */
  ghost predicate CanBeCut(srcs: seq<Stream>, i: nat)
    requires i < |srcs|
  {
    |srcs[i].rest| >= 2 && exists j :: 0 <= j < |srcs| && j != i && CanFail(srcs[j])
  }

  predicate CanFail(src: Stream) {
    src.rest != [] && src.failure.Some?
  }

  /** A stream is seen whole in every run if and only if it cannot be cut. */
  lemma SeenWholeIff(srcs: seq<Stream>, i: nat)
    requires i < |srcs|
    ensures (forall acts :: Observe(srcs, acts)[i] == srcs[i]) <==> !CanBeCut(srcs, i)
  {
    if CanBeCut(srcs, i) {
      var j :| 0 <= j < |srcs| && j != i && CanFail(srcs[j]);
      var acts := CutRun(srcs, i, j);
      assert Observe(srcs, acts)[i] != srcs[i];
    } else {
      forall acts
        ensures Observe(srcs, acts)[i] == srcs[i]
      {
        CutNeedsFailure(srcs, acts, i);
      }
    }
  }

  lemma CutNeedsFailure(srcs: seq<Stream>, acts: seq<Action>, i: nat)
    requires i < |srcs|
    ensures Observe(srcs, acts)[i] == srcs[i] || CanBeCut(srcs, i)
  {
    AfterKeepsInv(srcs, acts);
    var st := After(srcs, acts);
    ObservedIsSource(srcs[i], st.streams[i], st.cancelled);
    if st.streams[i].producer.GaveUp? {
      var j :| 0 <= j < |srcs| && Failed(st.streams[j]);
      assert InvOn(srcs[j], st.streams[j], st.cancelled);
      assert j != i && CanFail(srcs[j]);
    }
  }

  /** Only the given stream made steps, and the context is as before. */
  ghost predicate OnlyMoved(st: State, st': State, j: nat) {
    && |st'.streams| == |st.streams| && st'.cancelled == st.cancelled
    && forall k :: 0 <= k < |st.streams| && k != j ==> st'.streams[k] == st.streams[k]
  }

  /** One more step of a stream. */
  lemma Moves(srcs: seq<Stream>, acts: seq<Action>, j: nat, act: Act) returns (acts': seq<Action>)
    requires j < |srcs| && EnabledOn(After(srcs, acts).streams[j], act, After(srcs, acts).cancelled)
    ensures OnlyMoved(After(srcs, acts), After(srcs, acts'), j)
    ensures After(srcs, acts').streams[j] == StepOn(After(srcs, acts).streams[j], act)
  {
    acts' := acts + [On(j, act)];
    AfterSnoc(srcs, acts, On(j, act));
  }

  /** The producer is about to pop, and the consumer waits for the empty channel. */
  predicate Running(b: Buffered) {
    b.producer == Popping && b.chan == [] && Waiting(b)
  }

  /** A stream at its beginning gets to run. */
  lemma GetsRunning(srcs: seq<Stream>, acts: seq<Action>, j: nat) returns (acts': seq<Action>)
    requires j < |srcs| && srcs[j].rest != [] && After(srcs, acts).streams[j] == Wrapped(srcs[j])
    ensures OnlyMoved(After(srcs, acts), After(srcs, acts'), j)
    ensures var b := After(srcs, acts').streams[j]; Running(b) && b.inner == srcs[j].rest[1..]
    ensures After(srcs, acts').streams[j].failure == srcs[j].failure
  {
    acts' := Moves(srcs, acts, j, Pop);
    acts' := Moves(srcs, acts', j, Start);
  }

  /** A running stream gets to its end. */
  lemma {:induction false} RunsToEnd(srcs: seq<Stream>, acts: seq<Action>, j: nat) returns (acts': seq<Action>)
    requires j < |srcs| && Running(After(srcs, acts).streams[j])
    ensures OnlyMoved(After(srcs, acts), After(srcs, acts'), j)
    ensures After(srcs, acts').streams[j].producer.Finished?
    ensures After(srcs, acts').streams[j].failure == After(srcs, acts).streams[j].failure
    decreases |After(srcs, acts).streams[j].inner|
  {
    acts' := Moves(srcs, acts, j, Fetch);
    if After(srcs, acts).streams[j].inner != [] {
      acts' := Moves(srcs, acts', j, Send);
      acts' := Moves(srcs, acts', j, Take);
      acts' := Moves(srcs, acts', j, Pop);
      acts' := RunsToEnd(srcs, acts', j);
    }
  }

  /** Stream j runs to its failure, which cancels the context; stream i then gives up with its second entry in hand. */
  lemma CutRun(srcs: seq<Stream>, i: nat, j: nat) returns (acts: seq<Action>)
    requires i < |srcs| && j < |srcs| && i != j && |srcs[i].rest| >= 2 && CanFail(srcs[j])
    ensures CutShort(srcs[i], Observe(srcs, acts)[i])
  {
    acts := GetsRunning(srcs, [], j);
    acts := RunsToEnd(srcs, acts, j);
    assert Failed(After(srcs, acts).streams[j]);
    AfterSnoc(srcs, acts, Cancel);
    acts := acts + [Cancel];
    acts := GetsRunning(srcs, acts, i);
    acts := Moves(srcs, acts, i, Fetch);
    acts := Moves(srcs, acts, i, GiveUp);
    AfterKeepsInv(srcs, acts);
    ObservedIsSource(srcs[i], After(srcs, acts).streams[i], After(srcs, acts).cancelled);
  }

  /** When one file fails, the second entry of another need never be seen. */
  lemma OtherStreamIsCut(a: Entry, x: Entry, y: Entry) returns (acts: seq<Action>)
    ensures var srcs := [Stream(0, [a], Some(Failure("disk"))), Stream(1, [x, y], None)];
            Observe(srcs, acts)[1] == Stream(1, [x], None)
  {
    var srcs := [Stream(0, [a], Some(Failure("disk"))), Stream(1, [x, y], None)];
    acts := CutRun(srcs, 1, 0);
    assert Observe(srcs, acts)[1].rest == [x];
  }

  /** What is committed stays so; once the producer has returned, nothing is added. */
  lemma {:induction false} CommittedStays(srcs: seq<Stream>, acts: seq<Action>, t: nat, i: nat)
    requires t <= |acts| && i < |srcs|
    ensures var b, b' := After(srcs, acts[..t]).streams[i], After(srcs, acts).streams[i];
            && Committed(b) <= Committed(b')
            && (Done(b) ==> b'.producer == b.producer && Committed(b') == Committed(b))
  {
    if t == |acts| {
      assert acts[..t] == acts;
    } else {
      var before, act := acts[..|acts| - 1], acts[|acts| - 1];
      assert before[..t] == acts[..t];
      CommittedStays(srcs, before, t, i);
      AfterKeepsInv(srcs, before);
      var st := After(srcs, before);
      if Enabled(st, act) && act.On? && act.i == i {
        StepCommits(srcs[i], st.streams[i], act.act, st.cancelled);
      }
    }
  }

  /**
   * At every moment of every run, whatever else happens later, peek, pop and
   * error answer on a stream as they would on the fixed stream that is observed
   * in the end, with the entries popped so far taken off.
   */
  lemma LooksFixed(srcs: seq<Stream>, acts: seq<Action>, t: nat, i: nat)
    requires t <= |acts| && i < |srcs| && !Waiting(After(srcs, acts[..t]).streams[i])
    ensures var b, s, n := After(srcs, acts[..t]).streams[i], Observe(srcs, acts)[i],
                           |After(srcs, acts[..t]).streams[i].delivered|;
            && n <= |s.rest| && b.delivered == s.rest[..n]
            && (b.ok <==> n < |s.rest|)
            && (b.ok ==> b.e == s.rest[n])
            && (!b.ok ==> b.err == s.failure)
  {
    AfterKeepsInv(srcs, acts[..t]);
    AfterKeepsInv(srcs, acts);
    CommittedStays(srcs, acts, t, i);
    var b, b' := After(srcs, acts[..t]).streams[i], After(srcs, acts).streams[i];
    var s := Observe(srcs, acts)[i];
    ObservedIsSource(srcs[i], b', After(srcs, acts).cancelled);
    assert Committed(b') <= s.rest;
    assert b.delivered + Current(b) <= Committed(b) <= s.rest;
    if !b.ok {
      assert Committed(b) == b.delivered;
    }
  }
}
