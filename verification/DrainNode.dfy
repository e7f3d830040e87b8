/** The drain driver: rounds of drain requests until the server reports no remaining work. */
module DrainNode {
  import opened Common

  const MAX_U64 := TWO64 - 1

  datatype Message = Message(isDraining: bool, remaining: U64)

  /** What one round meets: the request fails, or a stream of messages that ends, or breaks off. */
  datatype Round = RequestFails(timeout: bool) | Stream(messages: seq<Message>, broken: bool)

  /** The driver has returned, or has used up the rounds it was given. */
  datatype Outcome = Returned(hardError: bool, remainingWork: bool, failed: bool) | StillDraining

  /** The work a message says is left: a server that is not draining has none to report. */
  function Told(m: Message): U64 {
    if m.isDraining then m.remaining else 0
  }

  function MessagesOf(r: Round): seq<Message> {
    if r.Stream? then r.messages else []
  }

  /** The work left after some messages, starting from `before`. */
  function After(before: U64, ms: seq<Message>): U64 {
    if ms == [] then before else Told(ms[|ms| - 1])
  }

  /** The work known to be left after the first k rounds. */
  function Remaining(rounds: seq<Round>, k: nat): U64
    requires k <= |rounds|
  {
    if k == 0 then MAX_U64 else After(Remaining(rounds, k - 1), MessagesOf(rounds[k - 1]))
  }

  /** Round j did not bring the remaining work strictly down. */
  predicate Stalled(rounds: seq<Round>, j: nat)
    requires j < |rounds|
  {
    Remaining(rounds, j + 1) >= Remaining(rounds, j)
  }

  predicate AnyStall(rounds: seq<Round>, k: nat)
    requires k <= |rounds|
  {
    exists j :: 0 <= j < k && Stalled(rounds, j)
  }

  lemma StallNext(rounds: seq<Round>, k: nat)
    requires k < |rounds|
    ensures AnyStall(rounds, k + 1) <==> (AnyStall(rounds, k) || Stalled(rounds, k))
  {
  }

  /** The requests sent: verbose exactly after a stall, and quiet ones are few. */
  ghost predicate Requested(verbose: seq<bool>, rounds: seq<Round>) {
    && |verbose| <= |rounds|
    && (forall k :: 0 <= k < |verbose| ==> (verbose[k] <==> AnyStall(rounds, k)))
    && (forall k :: 1 <= k < |verbose| && !verbose[k] ==> k <= Remaining(rounds, 1) < MAX_U64)
  }

  lemma RequestOne(verbose: seq<bool>, rounds: seq<Round>, isVerbose: bool)
    requires Requested(verbose, rounds) && |verbose| < |rounds|
    requires isVerbose <==> AnyStall(rounds, |verbose|)
    requires forall j :: 0 <= j < |verbose| ==> GoesOn(rounds, j)
    ensures Requested(verbose + [isVerbose], rounds)
  {
    if verbose != [] && !isVerbose {
      QuietRequestsBounded(rounds, |verbose|);
    }
  }

  /** Round k was reached and completed with work left. */
  predicate GoesOn(rounds: seq<Round>, k: nat)
    requires k < |rounds|
  {
    rounds[k].Stream? && !rounds[k].broken && Remaining(rounds, k + 1) != 0
  }

  /** The last message of a round said that nothing is left or that the server is not draining. */
  predicate SaysDrained(r: Round) {
    var ms := MessagesOf(r);
    ms != [] && (ms[|ms| - 1].remaining == 0 || !ms[|ms| - 1].isDraining)
  }

  /** Work goes to zero in round k only by what the last message of that round says. */
  lemma ZeroMeansDrained(rounds: seq<Round>, k: nat)
    requires k < |rounds| && forall j :: 0 <= j < k ==> GoesOn(rounds, j)
    ensures Remaining(rounds, k + 1) == 0 <==> SaysDrained(rounds[k])
  {
    assert k > 0 ==> GoesOn(rounds, k - 1);
  }

  lemma {:induction false} StrictDescent(rounds: seq<Round>, j: nat, k: nat)
    requires 1 <= j <= k <= |rounds| && !AnyStall(rounds, k)
    ensures Remaining(rounds, k) + (k - j) <= Remaining(rounds, j)
  {
    if j < k {
      assert !Stalled(rounds, k - 1);
      StrictDescent(rounds, j, k - 1);
    }
  }

  /** A quiet request comes only while every round made progress, so there are at most first report + 1 of them. */
  lemma QuietRequestsBounded(rounds: seq<Round>, k: nat)
    requires 1 <= k <= |rounds| && !AnyStall(rounds, k)
    requires forall j :: 0 <= j < k ==> GoesOn(rounds, j)
    ensures k <= Remaining(rounds, 1) < MAX_U64
  {
    StrictDescent(rounds, 1, k);
    assert GoesOn(rounds, k - 1);
    assert !Stalled(rounds, 0);
  }

  /** The messages of one round. */
  method ReadMessages(before: U64, ms: seq<Message>) returns (remaining: U64)
    ensures remaining == After(before, ms)
    ensures ms == [] ==> remaining == before
    ensures ms != [] ==> remaining == if ms[|ms| - 1].isDraining then ms[|ms| - 1].remaining else 0
  {
    remaining := before;
    var i := 0;
    while i < |ms|
      invariant 0 <= i <= |ms|
      invariant remaining == After(before, ms[..i])
    {
      if ms[i].isDraining {
        remaining := ms[i].remaining;
      } else {
        remaining := 0;
      }
      assert ms[..i + 1][i] == ms[i];
      i := i + 1;
    }
    assert ms[..i] == ms;
  }

  /**
   * doDrainNoTimeout. Success means that the last message received, which came in
   * the last round, said that nothing is left or that the server is not draining.
   * Quiet requests are at most the first report and one more.
   */
  method DoDrain(rounds: seq<Round>) returns (verbose: seq<bool>, out: Outcome)
    ensures Requested(verbose, rounds)
    ensures forall k :: 0 <= k < |verbose| - 1 ==> GoesOn(rounds, k)
    ensures out == StillDraining ==> |verbose| == |rounds| && forall k :: 0 <= k < |rounds| ==> GoesOn(rounds, k)
    ensures out.Returned? ==>
              && verbose != []
              && var k := |verbose| - 1;
              && !GoesOn(rounds, k)
              && out.remainingWork == (Remaining(rounds, k + 1) > 0)
              && out.failed == (rounds[k].RequestFails? || rounds[k].broken)
              && out.hardError == (rounds[k].RequestFails? && !rounds[k].timeout)
              && (!out.failed <==> rounds[k].Stream? && !rounds[k].broken && SaysDrained(rounds[k]))
  {
    var remaining: U64, prevRemaining: U64, isVerbose := MAX_U64, MAX_U64, false;
    verbose := [];
    var k := 0;
    while k < |rounds|
      invariant 0 <= k == |verbose| <= |rounds| && Requested(verbose, rounds)
      invariant forall j :: 0 <= j < k ==> GoesOn(rounds, j)
      invariant remaining == prevRemaining == Remaining(rounds, k)
      invariant isVerbose <==> AnyStall(rounds, k)
    {
      ZeroMeansDrained(rounds, k);
      RequestOne(verbose, rounds, isVerbose);
      verbose := verbose + [isVerbose];
      if rounds[k].RequestFails? {
        return verbose, Returned(!rounds[k].timeout, remaining > 0, true);
      }
      remaining := ReadMessages(remaining, rounds[k].messages);
      if rounds[k].broken {
        return verbose, Returned(false, remaining > 0, true);
      }
      if remaining == 0 {
        return verbose, Returned(false, remaining > 0, false);
      }
      if remaining >= prevRemaining {
        isVerbose := true;
      }
      StallNext(rounds, k);
      prevRemaining := remaining;
      k := k + 1;
    }
    out := StillDraining;
  }
}
