/** The state of the Ban Shield aggregator as a value, and its configuration. */
module AggregateState {
  import opened Wrappers
  import opened Networks
  import opened Collections
  import opened Counters

  // ---------- Configuration ----------

  /** Durations are seconds. */
  datatype AggregationConfig = AggregationConfig(
    ipFailures: u64, subnetFailures: u64, promoteAfterBannedIps: nat, repromoteAfterOffenses: u32,
    ipv4Prefix: nat, ipv6Prefix: nat,
    scoreRetention: nat, reputationRetention: nat, promotionWindow: nat, subnetBan: nat,
    firstBan: nat, secondBan: nat, thirdBan: nat, maxBan: nat,
    maxTrackedIps: nat, maxTrackedSubnets: nat, maxReputationEntries: nat, maxActiveBans: nat)

  /** What compiling a configuration checks about its aggregation part. */
  predicate Validated(cfg: AggregationConfig) {
    && cfg.ipFailures > 0 && cfg.subnetFailures > 0
    && cfg.promoteAfterBannedIps >= 2 && cfg.repromoteAfterOffenses > 0
    && cfg.scoreRetention > 0 && cfg.reputationRetention > 0 && cfg.promotionWindow > 0 && cfg.subnetBan > 0
    && 0 < cfg.firstBan <= cfg.secondBan <= cfg.thirdBan <= cfg.maxBan
    && cfg.maxTrackedIps > 0 && cfg.maxTrackedSubnets > 0
    && cfg.maxReputationEntries > 0 && cfg.maxActiveBans > 0
    && 1 <= cfg.ipv4Prefix <= 32 && 1 <= cfg.ipv6Prefix <= 128
  }

  type Config = cfg: AggregationConfig | Validated(cfg)
    witness AggregationConfig(4, 8, 2, 1, 24, 64, 1209600, 15552000, 1209600, 604800,
                              86400, 604800, 2592000, 7776000, 10000, 2048, 4096, 8192)

  function SubnetFor(cfg: Config, ip: IpAddr): IpNet {
    NetworkAt(ip, if ip.family.V4? then cfg.ipv4Prefix else cfg.ipv6Prefix)
  }

  // ---------- Records ----------

  datatype BanTarget = Ip(ip: IpAddr) | Subnet(net: IpNet)

  function NetworkOf(target: BanTarget): IpNet {
    match target
    case Ip(ip) => HostNetwork(ip)
    case Subnet(net) => net
  }

  datatype ActiveBan = ActiveBan(
    network: IpNet, source: string, reason: string, createdAt: int, expiresAt: int,
    hitCount: u64, offenseCount: u32, triggeringRule: Option<string>)

  datatype ReputationEntry = ReputationEntry(
    network: IpNet, offenseCount: u32, lastBannedAt: int, retainUntil: int)

  datatype RuleStats = RuleStats(matchCount: u64, banCount: u64)

  datatype BackendError = Refused | CapacityReached | AlreadyCovered | UnsupportedSchema

  datatype BanTransition = Banned(target: BanTarget) | Promoted(subnet: IpNet, removedIps: set<IpAddr>)

  datatype RecordResult = RecordResult(transitions: seq<BanTransition>, cleanupErrors: set<IpAddr>)

  // ---------- State ----------

  type Offenders = map<IpNet, map<IpAddr, int>>

  datatype Scores = Scores(
    counts: map<IpAddr, u64>, lastSeen: map<IpAddr, int>, subnets: map<IpNet, u64>, offenders: Offenders)

  datatype Bans = Bans(
    ips: set<IpAddr>, nets: set<IpNet>, active: map<BanTarget, ActiveBan>,
    reputation: map<IpNet, ReputationEntry>)

  datatype AggState = AggState(scores: Scores, bans: Bans, evictions: u64, rules: map<string, RuleStats>)

  const EMPTY: AggState := AggState(Scores(map[], map[], map[], map[]), Bans({}, {}, map[], map[]), 0, map[])

  function IpTargets(ips: set<IpAddr>): set<BanTarget> {
    set ip | ip in ips :: Ip(ip)
  }

  function SubnetTargets(nets: set<IpNet>): set<BanTarget> {
    set net | net in nets :: Subnet(net)
  }

  predicate CoveredBySubnet(bans: Bans, ip: IpAddr) {
    exists net | net in bans.nets :: Contains(net, ip)
  }

  /** The address is dropped by the logical ban set. */
  predicate IsBanned(bans: Bans, ip: IpAddr) {
    ip in bans.ips || CoveredBySubnet(bans, ip)
  }

  // ---------- Invariants ----------

  /** The two banned sets, the active records and the reputation table agree, and no single
      address is banned inside a banned subnet. */
  ghost predicate BansAgree(bans: Bans) {
    && bans.active.Keys == IpTargets(bans.ips) + SubnetTargets(bans.nets)
    && (forall t | t in bans.active :: bans.active[t].network == NetworkOf(t))
    && (forall ip | ip in bans.ips :: !CoveredBySubnet(bans, ip))
    && (forall net | net in bans.reputation :: bans.reputation[net].network == net)
  }

  /** Scores and last-seen times have one domain; the subnet index is the regrouped scores. */
  ghost predicate ScoresAgree(cfg: Config, scores: Scores) {
    && scores.counts.Keys == scores.lastSeen.Keys
    && scores.subnets == Regroup(cfg, scores.counts)
  }

  ghost predicate Agrees(cfg: Config, s: AggState) {
    ScoresAgree(cfg, s.scores) && BansAgree(s.bans)
  }

  ghost predicate BansWithinCaps(cfg: Config, bans: Bans) {
    |bans.active| <= cfg.maxActiveBans && |bans.reputation| <= cfg.maxReputationEntries
  }

  ghost predicate IpsWithinCap(cfg: Config, scores: Scores) {
    |scores.counts| <= cfg.maxTrackedIps
  }

  /** The two caps that restoring a file does not enforce. */
  ghost predicate IndexWithinCaps(cfg: Config, scores: Scores) {
    |scores.subnets| <= cfg.maxTrackedSubnets && |OffenderPairs(scores.offenders)| <= cfg.maxTrackedIps
  }

  /** Every (subnet, address) with a recorded crossing; their number is the summed table sizes. */
  function OffenderPairs(offenders: Offenders): set<(IpNet, IpAddr)> {
    set net, ip | net in offenders && ip in offenders[net] :: (net, ip)
  }

  // ---------- The subnet index, defined from the scores ----------

  function SubnetKey(cfg: Config): IpAddr -> IpNet {
    ip => SubnetFor(cfg, ip)
  }

  /** One entry for each subnet of a tracked address: the sum of its scores, capped at u64. */
  ghost function Regroup(cfg: Config, counts: map<IpAddr, u64>): map<IpNet, u64> {
    GroupTotals(counts, SubnetKey(cfg))
  }

  /** The scores of the addresses inside a network. */
  function Inside(counts: map<IpAddr, u64>, net: IpNet): map<IpAddr, u64> {
    map ip | ip in counts && Contains(net, ip) :: counts[ip]
  }

  lemma SubnetContains(cfg: Config, ip: IpAddr, other: IpAddr)
    ensures Contains(SubnetFor(cfg, ip), other) <==> SubnetFor(cfg, ip) == SubnetFor(cfg, other)
  {
    if ip.family == other.family {
      NetworkAtContains(ip, other, SubnetFor(cfg, ip).prefix);
    }
  }

  /** An address's subnet is the one network of its family's configured length, written with host
      bits zero, that contains it. */
  lemma SubnetForExactly(cfg: Config, ip: IpAddr, net: IpNet)
    ensures net == SubnetFor(cfg, ip) <==>
      && Contains(net, ip) && net.prefix == (if ip.family.V4? then cfg.ipv4Prefix else cfg.ipv6Prefix)
      && forall k | net.prefix <= k < |net.addr.bits| :: !net.addr.bits[k]
  {
    var own := SubnetFor(cfg, ip);
    if Contains(net, ip) && net.prefix == own.prefix
       && forall k | net.prefix <= k < |net.addr.bits| :: !net.addr.bits[k] {
      assert forall k | 0 <= k < net.prefix ::
        net.addr.bits[k] == net.addr.bits[..net.prefix][k] && own.addr.bits[k] == own.addr.bits[..net.prefix][k];
      assert net.addr.bits == own.addr.bits;
    }
  }

  /** Grouping by truncated prefix and filtering by containment pick the same scores. */
  lemma InsideIsGroup(cfg: Config, counts: map<IpAddr, u64>, ip: IpAddr)
    ensures Inside(counts, SubnetFor(cfg, ip)) == InGroup(counts, SubnetKey(cfg), SubnetFor(cfg, ip))
  {
    var net := SubnetFor(cfg, ip);
    forall other | other in counts ensures Contains(net, other) <==> SubnetKey(cfg)(other) == net {
      SubnetContains(cfg, ip, other);
    }
  }
}
