/** The firewall manager's side of the engine: validation of the tuning, the configuration built
    from it, and the check of a manual ban against the allowlist. */
module Firewall {
  import opened Wrappers
  import opened Networks
  import opened Counters
  import opened AggregateState
  import opened AggregateSteps
  import opened AggregateBans
  import opened Exceptions

  const SECONDS_PER_DAY: nat := 86400

  function DaysToSeconds(days: u64): Option<u64> {
    if days * SECONDS_PER_DAY <= U64_MAX then Some(days * SECONDS_PER_DAY) else None
  }

  /** Durations are days. */
  datatype FirewallTuning = FirewallTuning(
    ipFailures: u64, subnetFailures: u64, promoteAfterBannedIps: nat, repromoteAfterOffenses: u32,
    scoreRetention: u64, reputationRetention: u64, promotionWindow: u64, subnetBan: u64,
    firstBan: u64, secondBan: u64, thirdBan: u64, maxBan: u64)

  datatype TuningError =
    | ZeroThreshold | FewPromoters | ZeroOffenses | ZeroDuration | DurationRange | UnorderedBans
    | SubnetBanTooLong | ScoresTooShort | WindowTooShort | ReputationTooShort

  function Durations(t: FirewallTuning): seq<u64> {
    [t.scoreRetention, t.reputationRetention, t.promotionWindow, t.subnetBan,
     t.firstBan, t.secondBan, t.thirdBan, t.maxBan]
  }

  predicate GoodDays(days: u64) {
    days > 0 && DaysToSeconds(days).Some?
  }

  ghost predicate ValidTuning(t: FirewallTuning) {
    && t.ipFailures > 0 && t.subnetFailures > 0
    && t.promoteAfterBannedIps >= 2 && t.repromoteAfterOffenses > 0
    && (forall days | days in Durations(t) :: GoodDays(days))
    && t.firstBan <= t.secondBan <= t.thirdBan <= t.maxBan
    && t.subnetBan <= t.maxBan
    && t.scoreRetention > t.subnetBan && t.promotionWindow > t.subnetBan
    && t.reputationRetention > t.maxBan
  }

  method ValidateTuning(t: FirewallTuning) returns (r: Result<(), TuningError>)
    ensures r.Success? <==> ValidTuning(t)
  {
    if t.ipFailures == 0 || t.subnetFailures == 0 {
      return Failure(ZeroThreshold);
    }
    if t.promoteAfterBannedIps < 2 {
      return Failure(FewPromoters);
    }
    if t.repromoteAfterOffenses == 0 {
      return Failure(ZeroOffenses);
    }
    var durations := Durations(t);
    for i := 0 to |durations|
      invariant forall j | 0 <= j < i :: GoodDays(durations[j])
    {
      assert durations[i] in Durations(t);
      if durations[i] == 0 {
        return Failure(ZeroDuration);
      }
      if DaysToSeconds(durations[i]).None? {
        return Failure(DurationRange);
      }
    }
    if t.firstBan > t.secondBan || t.secondBan > t.thirdBan || t.thirdBan > t.maxBan {
      return Failure(UnorderedBans);
    }
    if t.subnetBan > t.maxBan {
      return Failure(SubnetBanTooLong);
    }
    if t.scoreRetention <= t.subnetBan {
      return Failure(ScoresTooShort);
    }
    if t.promotionWindow <= t.subnetBan {
      return Failure(WindowTooShort);
    }
    if t.reputationRetention <= t.maxBan {
      return Failure(ReputationTooShort);
    }
    r := Success(());
  }

  /** The settings of the application that the tuning does not cover. */
  datatype Limits = Limits(
    ipv4Prefix: nat, ipv6Prefix: nat, maxTrackedIps: nat, maxTrackedSubnets: nat,
    maxReputationEntries: nat, maxActiveBans: nat)

  predicate ValidLimits(l: Limits) {
    && 1 <= l.ipv4Prefix <= 32 && 1 <= l.ipv6Prefix <= 128
    && l.maxTrackedIps > 0 && l.maxTrackedSubnets > 0 && l.maxReputationEntries > 0 && l.maxActiveBans > 0
  }

  function Seconds(days: u64): nat {
    days * SECONDS_PER_DAY
  }

  /** The engine's aggregation settings; none when a duration overflows. */
  function BuildAggregation(t: FirewallTuning, l: Limits): Option<AggregationConfig> {
    if exists days | days in Durations(t) :: DaysToSeconds(days).None? then None else
      Some(AggregationConfig(
        t.ipFailures, t.subnetFailures, t.promoteAfterBannedIps, t.repromoteAfterOffenses,
        l.ipv4Prefix, l.ipv6Prefix,
        Seconds(t.scoreRetention), Seconds(t.reputationRetention), Seconds(t.promotionWindow), Seconds(t.subnetBan),
        Seconds(t.firstBan), Seconds(t.secondBan), Seconds(t.thirdBan), Seconds(t.maxBan),
        l.maxTrackedIps, l.maxTrackedSubnets, l.maxReputationEntries, l.maxActiveBans))
  }

  /** A validated tuning always builds a configuration the engine accepts, and one under which
      reputations outlive bans. */
  lemma ValidTuningBuilds(t: FirewallTuning, l: Limits)
    requires ValidTuning(t) && ValidLimits(l)
    ensures BuildAggregation(t, l).Some? && Validated(BuildAggregation(t, l).value)
    ensures TunedDurations(BuildAggregation(t, l).value)
  {
    assert Durations(t)[0] in Durations(t) && Durations(t)[1] in Durations(t);
    assert Durations(t)[2] in Durations(t) && Durations(t)[3] in Durations(t);
    assert Durations(t)[4] in Durations(t);
  }

  /** Each setting is the tuning value or limit of its name, days counted as 86400 seconds; there
      are none only when some number of days does not fit. */
  lemma SettingsAreTuned(t: FirewallTuning, l: Limits)
    ensures BuildAggregation(t, l).None? <==> exists days | days in Durations(t) :: days * 86400 > 0xFFFF_FFFF_FFFF_FFFF
    ensures BuildAggregation(t, l).Some? ==>
      var cfg := BuildAggregation(t, l).value;
      && cfg.ipFailures == t.ipFailures && cfg.subnetFailures == t.subnetFailures
      && cfg.promoteAfterBannedIps == t.promoteAfterBannedIps && cfg.repromoteAfterOffenses == t.repromoteAfterOffenses
      && cfg.scoreRetention == t.scoreRetention * 86400 && cfg.reputationRetention == t.reputationRetention * 86400
      && cfg.promotionWindow == t.promotionWindow * 86400 && cfg.subnetBan == t.subnetBan * 86400
      && cfg.firstBan == t.firstBan * 86400 && cfg.secondBan == t.secondBan * 86400
      && cfg.thirdBan == t.thirdBan * 86400 && cfg.maxBan == t.maxBan * 86400
      && cfg.ipv4Prefix == l.ipv4Prefix && cfg.ipv6Prefix == l.ipv6Prefix
      && cfg.maxTrackedIps == l.maxTrackedIps && cfg.maxTrackedSubnets == l.maxTrackedSubnets
      && cfg.maxReputationEntries == l.maxReputationEntries && cfg.maxActiveBans == l.maxActiveBans
  {
  }

  // ---------- Manual bans ----------

  datatype RequestError = PolicyDisabled | Allowlisted | NotRunning

  /** Lengths 32 and 128 are taken for single addresses in either family. */
  function ManualTarget(network: IpNet): BanTarget {
    if network.prefix == 32 || network.prefix == 128 then Ip(network.addr) else Subnet(network)
  }

  function RequestBan(enabled: bool, allowlist: seq<IpNet>, running: bool, network: IpNet)
    : Result<BanTarget, RequestError>
  {
    if !enabled then Failure(PolicyDisabled)
    else if exists allowed | allowed in allowlist :: Overlap(allowed, network) then Failure(Allowlisted)
    else if !running then Failure(NotRunning)
    else Success(ManualTarget(network))
  }

  /** What passes the allowlist check is never covered by an exception and never a subnet of
      host length: the conditions runs of the worker ask of manual bans. */
  lemma RequestedBansAreGuarded(enabled: bool, allowlist: seq<IpNet>, running: bool, network: IpNet)
    ensures
      var r := RequestBan(enabled, allowlist, running, network);
      r.Success? ==> !IsExcepted(r.value, allowlist) && (r.value.Subnet? ==> !IsHostNetwork(r.value.net))
  {
    var r := RequestBan(enabled, allowlist, running, network);
    if r.Success? {
      ExceptedIsCovered(r.value, allowlist);
      assert NetworkOf(r.value).addr == network.addr;
      forall allowed | allowed in allowlist ensures !Covers(allowed, NetworkOf(r.value)) {
        assert !Overlap(allowed, network);
      }
    }
  }

  /** A request passes exactly when the policy is enabled, the engine runs, and no address of the
      network is in the allowlist. */
  lemma RequestPassesExactlyWhen(enabled: bool, allowlist: seq<IpNet>, running: bool, network: IpNet)
    ensures RequestBan(enabled, allowlist, running, network).Success? <==>
      && enabled && running
      && forall allowed: IpNet, ip: IpAddr | allowed in allowlist && Contains(allowed, ip) :: !Contains(network, ip)
  {
    hide Contains, Overlap;
    forall allowed | allowed in allowlist
      ensures Overlap(allowed, network) <==> exists ip: IpAddr :: Contains(allowed, ip) && Contains(network, ip)
    {
      OverlapIsIntersection(allowed, network);
    }
  }

  /** The ban placed covers the requested network exactly, except for an IPv6 network of length
      32, of which only the written address is banned. */
  lemma ManualTargetIsNetworkExactlyWhen(network: IpNet)
    ensures (forall ip: IpAddr :: Contains(NetworkOf(ManualTarget(network)), ip) <==> Contains(network, ip))
       <==> !(network.addr.family.V6? && network.prefix == 32)
  {
    if network.addr.family.V6? && network.prefix == 32 {
      var bits := network.addr.bits;
      var other: IpAddr := Address(V6, bits[127 := !bits[127]]);
      assert other.bits[..32] == bits[..32];
      HostContains(network.addr, other);
      assert other.bits[127] != bits[127];
      assert Contains(network, other) && !Contains(HostNetwork(network.addr), other);
    } else {
      forall ip: IpAddr ensures Contains(NetworkOf(ManualTarget(network)), ip) <==> Contains(network, ip) {
      }
    }
  }

  // ---------- Unbanning ----------

  /** Unbanning a network adds it to the allowlist unless it is covered already. */
  function Unbanned(allowlist: seq<IpNet>, network: IpNet): seq<IpNet> {
    if exists allowed | allowed in allowlist :: Covers(allowed, network) then allowlist else allowlist + [network]
  }

  /** Afterwards exactly the old exceptions and the network's own addresses are excepted, and
      unbanning again changes nothing. */
  lemma UnbanExcepts(allowlist: seq<IpNet>, network: IpNet, ip: IpAddr)
    ensures IsException(ip, Unbanned(allowlist, network)) <==> IsException(ip, allowlist) || Contains(network, ip)
    ensures IsCovered(network, Unbanned(allowlist, network))
    ensures Unbanned(Unbanned(allowlist, network), network) == Unbanned(allowlist, network)
  {
    var after := Unbanned(allowlist, network);
    assert Covers(network, network);
    if after == allowlist {
      var allowed :| allowed in allowlist && Covers(allowed, network);
      if Contains(network, ip) {
        CoversContains(allowed, network, ip);
      }
    } else {
      assert network in after && forall a | a in allowlist :: a in after;
      assert forall a | a in after :: a in allowlist || a == network;
    }
  }
}
