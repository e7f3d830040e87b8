/** Filling in unset Raft tuning parameters. Integers have the widths of the source. */
module RaftDefaults {
  import opened Common

  /** Division that truncates toward zero. */
  function Half(x: int): (r: int)
    ensures if x >= 0 then x - 1 <= 2 * r <= x else x <= 2 * r <= x + 1
  {
    if x >= 0 then x / 2 else -((0 - x) / 2)
  }

  /** Ticks, durations and the renewal fraction, which are only replaced when zero. */
  datatype Timing = Timing(
    tickInterval: I64,
    electionTimeoutTicks: I64,
    heartbeatIntervalTicks: I64,
    leaseDuration: I64,
    leaseRenewalFraction: real,
    reproposalTimeoutTicks: I64,
    delaySplit: I64)

  datatype Params = Params(
    timing: Timing,
    checkQuorum: bool,
    truncationThreshold: I64,
    proposalQuota: I64,
    maxUncommitted: U64,
    maxSizePerMsg: U64,
    maxCommittedSizePerReady: U64,
    maxInflightMsgs: I64,
    maxInflightBytes: U64)

  function OrDefault(x: I64, d: I64): I64 {
    if x == 0 then d else x
  }

  function DefaultedTiming(t: Timing, d: Timing): Timing {
    Timing(
      OrDefault(t.tickInterval, d.tickInterval),
      OrDefault(t.electionTimeoutTicks, d.electionTimeoutTicks),
      OrDefault(t.heartbeatIntervalTicks, d.heartbeatIntervalTicks),
      OrDefault(t.leaseDuration, d.leaseDuration),
      if t.leaseRenewalFraction == 0.0 then d.leaseRenewalFraction else t.leaseRenewalFraction,
      OrDefault(t.reproposalTimeoutTicks, d.reproposalTimeoutTicks),
      OrDefault(t.delaySplit, d.delaySplit))
  }

  /** min(msgs * size, 2^64 - 1), where a negative product counts as too large. */
  function MaxInflightBytesFrom(msgs: I64, size: U64): (r: U64)
    ensures msgs >= 0 ==> r == if msgs * size < TWO64 then msgs * size else TWO64 - 1
    ensures msgs < 0 ==> r == if size == 0 then 0 else TWO64 - 1
  {
    var mul := msgs * size;
    if 0 <= mul < TWO64 then mul
    else TWO64 - 1
  }

  function Double(x: int): int {
    2 * x
  }

  function Threshold(c: Params, d: Params): I64 {
    OrDefault(c.truncationThreshold, d.truncationThreshold)
  }

  function QuotaOf(c: Params, d: Params): I64 {
    if c.proposalQuota != 0 then c.proposalQuota else Half(Threshold(c, d))
  }

  function UncommittedOf(c: Params, d: Params): U64 {
    if c.maxUncommitted != 0 then c.maxUncommitted else WrapU64(WrapI64(Double(QuotaOf(c, d))))
  }

  function SizeOf(c: Params, d: Params): U64 {
    if c.maxSizePerMsg == 0 then d.maxSizePerMsg else c.maxSizePerMsg
  }

  function CommittedOf(c: Params, d: Params): U64 {
    if c.maxCommittedSizePerReady == 0 then d.maxCommittedSizePerReady else c.maxCommittedSizePerReady
  }

  function InflightOf(c: Params, d: Params): U64 {
    var bytes: U64 := if c.maxInflightBytes == 0 then d.maxInflightBytes else c.maxInflightBytes;
    var other := MaxInflightBytesFrom(OrDefault(c.maxInflightMsgs, d.maxInflightMsgs), SizeOf(c, d));
    if bytes < other then other else bytes
  }

  /** The configuration after SetDefaults, where d holds the defaults. */
  function Defaulted(c: Params, d: Params): (r: Params) {
    Params(
      DefaultedTiming(c.timing, d.timing),
      c.checkQuorum || d.checkQuorum,
      Threshold(c, d),
      QuotaOf(c, d),
      UncommittedOf(c, d),
      SizeOf(c, d),
      CommittedOf(c, d),
      OrDefault(c.maxInflightMsgs, d.maxInflightMsgs),
      InflightOf(c, d))
  }

  /** SetDefaults ends with a panic. */
  predicate Panics(c: Params) {
    c.proposalQuota > WrapI64(c.maxUncommitted)
  }

  class RaftConfig {
    var timing: Timing
    var checkQuorum: bool
    var truncationThreshold: I64
    var proposalQuota: I64
    var maxUncommitted: U64
    var maxSizePerMsg: U64
    var maxCommittedSizePerReady: U64
    var maxInflightMsgs: I64
    var maxInflightBytes: U64

    function View(): Params
      reads this
    {
      Params(timing, checkQuorum, truncationThreshold, proposalQuota, maxUncommitted,
             maxSizePerMsg, maxCommittedSizePerReady, maxInflightMsgs, maxInflightBytes)
    }

    method SetTimingDefaults(d: Timing)
      modifies this
      ensures View() == old(View()).(timing := DefaultedTiming(old(timing), d))
    {
      if timing.tickInterval == 0 {
        timing := timing.(tickInterval := d.tickInterval);
      }
      if timing.electionTimeoutTicks == 0 {
        timing := timing.(electionTimeoutTicks := d.electionTimeoutTicks);
      }
      if timing.heartbeatIntervalTicks == 0 {
        timing := timing.(heartbeatIntervalTicks := d.heartbeatIntervalTicks);
      }
      if timing.leaseDuration == 0 {
        timing := timing.(leaseDuration := d.leaseDuration);
      }
      if timing.leaseRenewalFraction == 0.0 {
        timing := timing.(leaseRenewalFraction := d.leaseRenewalFraction);
      }
      if timing.reproposalTimeoutTicks == 0 {
        timing := timing.(reproposalTimeoutTicks := d.reproposalTimeoutTicks);
      }
      if timing.delaySplit == 0 {
        timing := timing.(delaySplit := d.delaySplit);
      }
    }

    method SetSizeDefaults(d: Params)
      modifies this
      ensures View() == old(View()).(
                truncationThreshold := Threshold(old(View()), d),
                proposalQuota := QuotaOf(old(View()), d),
                maxUncommitted := UncommittedOf(old(View()), d))
    {
      if truncationThreshold == 0 {
        truncationThreshold := d.truncationThreshold;
      }
      if proposalQuota == 0 {
        proposalQuota := Half(truncationThreshold);
      }
      if maxUncommitted == 0 {
        maxUncommitted := WrapU64(WrapI64(Double(proposalQuota)));
      }
    }

    method SetInflightDefaults(d: Params)
      modifies this
      ensures View() == old(View()).(
                maxSizePerMsg := SizeOf(old(View()), d),
                maxCommittedSizePerReady := CommittedOf(old(View()), d),
                maxInflightMsgs := OrDefault(old(maxInflightMsgs), d.maxInflightMsgs),
                maxInflightBytes := InflightOf(old(View()), d))
    {
      if maxSizePerMsg == 0 {
        maxSizePerMsg := d.maxSizePerMsg;
      }
      if maxCommittedSizePerReady == 0 {
        maxCommittedSizePerReady := d.maxCommittedSizePerReady;
      }
      if maxInflightMsgs == 0 {
        maxInflightMsgs := d.maxInflightMsgs;
      }
      if maxInflightBytes == 0 {
        maxInflightBytes := d.maxInflightBytes;
      }
      var other := MaxInflightBytesFrom(maxInflightMsgs, maxSizePerMsg);
      if maxInflightBytes < other {
        maxInflightBytes := other;
      }
    }

    method SetDefaults(d: Params) returns (panics: bool)
      modifies this
      ensures View() == Defaulted(old(View()), d)
      ensures panics == Panics(View())
    {
      SetTimingDefaults(d.timing);
      if !checkQuorum {
        checkQuorum := d.checkQuorum;
      }
      SetSizeDefaults(d);
      SetInflightDefaults(d);
      panics := proposalQuota > WrapI64(maxUncommitted);
    }
  }

  /** Each timing field that is unset takes its own default; each set one stays. */
  lemma TimingDefaultsAre(t: Timing, d: Timing)
    ensures var r := DefaultedTiming(t, d);
            && r.tickInterval == (if t.tickInterval == 0 then d.tickInterval else t.tickInterval)
            && r.electionTimeoutTicks ==
               (if t.electionTimeoutTicks == 0 then d.electionTimeoutTicks else t.electionTimeoutTicks)
            && r.heartbeatIntervalTicks ==
               (if t.heartbeatIntervalTicks == 0 then d.heartbeatIntervalTicks else t.heartbeatIntervalTicks)
            && r.leaseDuration == (if t.leaseDuration == 0 then d.leaseDuration else t.leaseDuration)
            && r.leaseRenewalFraction ==
               (if t.leaseRenewalFraction == 0.0 then d.leaseRenewalFraction else t.leaseRenewalFraction)
            && r.reproposalTimeoutTicks ==
               (if t.reproposalTimeoutTicks == 0 then d.reproposalTimeoutTicks else t.reproposalTimeoutTicks)
            && r.delaySplit == (if t.delaySplit == 0 then d.delaySplit else t.delaySplit)
  {
  }

  /** The quota, unless set, is half the threshold, rounded toward zero. */
  lemma SizeDefaultsAre(c: Params, d: Params)
    ensures var t := Threshold(c, d);
            var q := QuotaOf(c, d);
            && t == (if c.truncationThreshold == 0 then d.truncationThreshold else c.truncationThreshold)
            && (c.proposalQuota != 0 ==> q == c.proposalQuota)
            && (c.proposalQuota == 0 && t >= 0 ==> t - 1 <= 2 * q <= t)
            && (c.proposalQuota == 0 && t < 0 ==> t <= 2 * q <= t + 1)
  {
  }

  /** The uncommitted size, unless set, is twice the quota, as long as 63 bits can hold it. */
  lemma UncommittedDefaultIs(c: Params, d: Params)
    ensures var q := QuotaOf(c, d);
            && (c.maxUncommitted != 0 ==> UncommittedOf(c, d) == c.maxUncommitted)
            && (c.maxUncommitted == 0 && 0 <= q < TWO62 ==> UncommittedOf(c, d) == 2 * q)
  {
    if 0 <= QuotaOf(c, d) < TWO62 {
      SmallDouble(QuotaOf(c, d));
    }
  }

  lemma SmallDouble(q: nat)
    requires q < TWO62
    ensures WrapU64(WrapI64(Double(q))) == 2 * q
  {
  }

  /** The limits on messages take their own defaults; the bytes in flight are raised to what the messages need. */
  lemma InflightDefaultsAre(c: Params, d: Params)
    ensures var size := SizeOf(c, d);
            var msgs := OrDefault(c.maxInflightMsgs, d.maxInflightMsgs);
            var bytes := if c.maxInflightBytes == 0 then d.maxInflightBytes else c.maxInflightBytes;
            && size == (if c.maxSizePerMsg == 0 then d.maxSizePerMsg else c.maxSizePerMsg)
            && CommittedOf(c, d) ==
               (if c.maxCommittedSizePerReady == 0 then d.maxCommittedSizePerReady else c.maxCommittedSizePerReady)
            && msgs == (if c.maxInflightMsgs == 0 then d.maxInflightMsgs else c.maxInflightMsgs)
            && InflightOf(c, d) == Max(bytes, MaxInflightBytesFrom(msgs, size))
  {
  }

  /** The whole configuration after SetDefaults, field by field. */
  lemma DefaultsAre(c: Params, d: Params)
    ensures var r := Defaulted(c, d);
            && r.timing == DefaultedTiming(c.timing, d.timing)
            && (r.checkQuorum <==> c.checkQuorum || d.checkQuorum)
            && r.truncationThreshold == Threshold(c, d)
            && r.proposalQuota == QuotaOf(c, d)
            && r.maxUncommitted == UncommittedOf(c, d)
            && r.maxSizePerMsg == SizeOf(c, d)
            && r.maxCommittedSizePerReady == CommittedOf(c, d)
            && r.maxInflightMsgs == OrDefault(c.maxInflightMsgs, d.maxInflightMsgs)
            && r.maxInflightBytes == InflightOf(c, d)
  {
  }

  /** SetDefaults is called several times; the second call changes nothing and panics exactly when the first did. */
  lemma Idempotent(c: Params, d: Params)
    ensures Defaulted(Defaulted(c, d), d) == Defaulted(c, d)
  {
  }

  /** The bytes in flight allow the messages in flight, as far as 64 bits can say. */
  lemma InflightBytesSuffice(c: Params, d: Params)
    ensures var r := Defaulted(c, d);
            r.maxInflightMsgs >= 0 ==>
              r.maxInflightBytes >= r.maxInflightMsgs * r.maxSizePerMsg || r.maxInflightBytes == TWO64 - 1
  {
  }

  /**
   * When SetDefaults panics. With the uncommitted size unset: when the quota is
   * negative but not below -2^62, or at least 2^62, since doubling it then gives a
   * smaller number, or wraps to one. With the size set: when the quota exceeds it,
   * or exceeds the negative number it is converted to.
   */
  lemma PanicsIff(c: Params, d: Params)
    ensures var q := QuotaOf(c, d);
            Panics(Defaulted(c, d)) <==>
            if c.maxUncommitted == 0 then -TWO62 <= q < 0 || q >= TWO62
            else if c.maxUncommitted < TWO63 then q > c.maxUncommitted
            else q > c.maxUncommitted - TWO64
  {
    var q := QuotaOf(c, d);
    if c.maxUncommitted == 0 {
      WrapRoundTrip(WrapI64(Double(q)));
      DoubleWraps(q);
    }
  }

  lemma WrapRoundTrip(x: I64)
    ensures WrapI64(WrapU64(x)) == x
  {
  }

  lemma DoubleWraps(q: I64)
    ensures q > WrapI64(Double(q)) <==> -TWO62 <= q < 0 || q >= TWO62
  {
  }

  /** Deriving both from a non-negative truncation threshold never panics. */
  lemma DerivedNeverPanics(c: Params, d: Params)
    requires c.proposalQuota == 0 && c.maxUncommitted == 0
    requires c.truncationThreshold > 0 || (c.truncationThreshold == 0 && d.truncationThreshold >= 0)
    ensures !Panics(Defaulted(c, d))
    ensures Defaulted(c, d).proposalQuota <= Defaulted(c, d).maxUncommitted
  {
    SizeDefaultsAre(c, d);
    UncommittedDefaultIs(c, d);
    PanicsIff(c, d);
  }

  /** A negative threshold is halved to a negative quota, which then exceeds its double. */
  lemma NegativeThresholdPanics(d: Params)
    ensures Panics(Defaulted(Params(d.timing, true, -2, 0, 0, 1, 1, 1, 1), d))
  {
    PanicsIff(Params(d.timing, true, -2, 0, 0, 1, 1, 1, 1), d);
  }

  /** A positive quota panics with the largest uncommitted size, which is converted to -1. */
  lemma LargestSizePanics(d: Params)
    ensures Panics(Defaulted(Params(d.timing, true, 0, 1, TWO64 - 1, 1, 1, 1, 1), d))
  {
    PanicsIff(Params(d.timing, true, 0, 1, TWO64 - 1, 1, 1, 1, 1), d);
  }
}
