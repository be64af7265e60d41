/** When a hit bans or promotes, what record a ban gets, and what it changes besides. */
module BanEffects {
  import opened Wrappers
  import opened Networks
  import opened Collections
  import opened Counters
  import opened Eviction
  import opened AggregateState
  import opened AggregateSteps
  import opened AggregateInvariants
  import opened RecordEffects

  // ---------- Promotion ----------

  /** Enough addresses of the subnet have crossed their threshold. */
  predicate ManyCrossed(cfg: Config, scores: Scores, net: IpNet) {
    net in scores.offenders && |scores.offenders[net]| >= cfg.promoteAfterBannedIps
  }

  function ScoredInside(scores: Scores, net: IpNet): set<IpAddr> {
    set a | a in scores.counts && Contains(net, a)
  }

  /** The subnet's total is over its threshold and enough addresses share it. */
  predicate ManyShare(cfg: Config, scores: Scores, net: IpNet) {
    && net in scores.subnets && scores.subnets[net] >= cfg.subnetFailures
    && |ScoredInside(scores, net)| >= cfg.promoteAfterBannedIps
  }

  /** The address is over its threshold in a subnet banned often enough before. */
  predicate Reoffends(cfg: Config, bans: Bans, scores: Scores, net: IpNet, ip: IpAddr) {
    && ip in scores.counts && scores.counts[ip] >= cfg.ipFailures
    && net in bans.reputation && bans.reputation[net].offenseCount >= cfg.repromoteAfterOffenses
  }

  /** A hit on an address no subnet ban covers promotes the subnet exactly when enough of its
      addresses have crossed, or enough share its total, or it reoffends; otherwise it bans the
      address exactly when its score is at the threshold and it is not banned. */
  lemma PromotesExactlyWhen(cfg: Config, s: AggState, entries: set<BanTarget>, ip: IpAddr, weight: u64, rule: string,
                            now: int, gone: Evicted, s': AggState, entries': set<BanTarget>,
                            r: Result<RecordResult, BackendError>)
    requires RecordStep(cfg, s, entries, ip, weight, rule, now, gone, s', entries', r) && r.Success?
    requires !IsCoveredNow(s.bans, ip)
    ensures
      var net := SubnetFor(cfg, ip);
      if ManyCrossed(cfg, s'.scores, net) || ManyShare(cfg, s'.scores, net)
         || Reoffends(cfg, s.bans, s'.scores, net, ip) then
        && r.value.transitions == [Promoted(net, set a | a in s.bans.ips && Contains(net, a))]
        && Subnet(net) in s'.bans.active && net in s'.bans.nets
      else if ip in s'.scores.counts && s'.scores.counts[ip] >= cfg.ipFailures && ip !in s.bans.ips then
        r.value.transitions == [Banned(Ip(ip))] && Ip(ip) in s'.bans.active && ip in s'.bans.ips
      else
        r.value.transitions == [] && s'.bans == s.bans
  {
    var net := SubnetFor(cfg, ip);
    ShouldPromoteExactly(cfg, s'.scores, s.bans, ip);
    hide RoomChoice, RoomFor, Added, SubnetFor, CrossingChoice, Crossed, WithoutCrossing, Lost, CountMatch, CountBans;
    hide ShouldPromote, PromotionBan, ThresholdBan, TrimChoice, ManyCrossed, ManyShare, Reoffends, Contains;
  }

  lemma ShouldPromoteExactly(cfg: Config, scores: Scores, bans: Bans, ip: IpAddr)
    ensures
      var net := SubnetFor(cfg, ip);
      ShouldPromote(cfg, scores, bans, ip) <==>
        ManyCrossed(cfg, scores, net) || ManyShare(cfg, scores, net) || Reoffends(cfg, bans, scores, net, ip)
  {
    hide SubnetFor, Contains;
    var net := SubnetFor(cfg, ip);
    assert Inside(scores.counts, net).Keys == ScoredInside(scores, net);
    assert |Inside(scores.counts, net)| == |Inside(scores.counts, net).Keys|;
  }

  /** A hit on a covered address, and a failed one, leave every ban as it was. */
  lemma NoBanLeavesBans(cfg: Config, s: AggState, entries: set<BanTarget>, ip: IpAddr, weight: u64, rule: string,
                        now: int, gone: Evicted, s': AggState, entries': set<BanTarget>,
                        r: Result<RecordResult, BackendError>)
    requires RecordStep(cfg, s, entries, ip, weight, rule, now, gone, s', entries', r)
    ensures IsCoveredNow(s.bans, ip) || r.Failure? || r.value.transitions == [] ==>
              s'.bans == s.bans && entries' == entries
    ensures IsCoveredNow(s.bans, ip) ==> r == Success(RecordResult([], {}))
  {
    hide RoomChoice, RoomFor, Added, SubnetFor, CrossingChoice, Crossed, WithoutCrossing, Lost, CountMatch, CountBans;
    hide ShouldPromote, PromotionBan, ThresholdBan, TrimChoice, Contains, Placed, CoveredIps;
  }

  // ---------- Records ----------

  /** The number of a network's next ban: one more than remembered, saturating; the first when
      nothing is remembered. */
  predicate NextNumber(bans: Bans, net: IpNet, n: u32) {
    if net in bans.reputation then
      if bans.reputation[net].offenseCount < U32_MAX then n == bans.reputation[net].offenseCount + 1 else n == U32_MAX
    else n == 1
  }

  /** First, second, third and later bans last their own time each. */
  predicate LastsFor(cfg: Config, n: u32, seconds: int) {
    && (n == 1 ==> seconds == cfg.firstBan)
    && (n == 2 ==> seconds == cfg.secondBan)
    && (n == 3 ==> seconds == cfg.thirdBan)
    && (n >= 4 ==> seconds == cfg.maxBan)
  }

  /** The record of an automatic ban of an address. */
  lemma AddressBanRecord(cfg: Config, s: AggState, entries: set<BanTarget>, ip: IpAddr, weight: u64, rule: string,
                         now: int, gone: Evicted, s': AggState, entries': set<BanTarget>,
                         r: Result<RecordResult, BackendError>)
    requires RecordStep(cfg, s, entries, ip, weight, rule, now, gone, s', entries', r)
    requires r.Success? && r.value.transitions == [Banned(Ip(ip))]
    ensures Ip(ip) in s'.bans.active && ip in s'.scores.counts
    ensures
      var b := s'.bans.active[Ip(ip)];
      && b.network == HostNetwork(ip) && b.createdAt == now && b.hitCount == s'.scores.counts[ip]
      && b.source == "automatic" && b.reason == "threshold" && b.triggeringRule == Some(rule)
      && NextNumber(s.bans, HostNetwork(ip), b.offenseCount) && LastsFor(cfg, b.offenseCount, b.expiresAt - now)
  {
    hide RecordStep, SubnetFor, PlaceStep, ThresholdBan, NextNumber, LastsFor;
    AddressAttempt(cfg, s, entries, ip, weight, rule, now, gone, s', entries', r);
    var ban := ThresholdBan(cfg, s'.scores, s.bans, ip, now, rule);
    PlacedRecord(cfg, s.bans, entries, Ip(ip), ban, gone.reputation, s'.bans, entries', r.value.cleanupErrors);
    ThresholdBanIs(cfg, s'.scores, s.bans, ip, now, rule);
  }

  lemma AddressAttempt(cfg: Config, s: AggState, entries: set<BanTarget>, ip: IpAddr, weight: u64, rule: string,
                       now: int, gone: Evicted, s': AggState, entries': set<BanTarget>,
                       r: Result<RecordResult, BackendError>)
    requires RecordStep(cfg, s, entries, ip, weight, rule, now, gone, s', entries', r)
    requires r.Success? && r.value.transitions == [Banned(Ip(ip))]
    ensures PlaceStep(cfg, s.bans, entries, Ip(ip), ThresholdBan(cfg, s'.scores, s.bans, ip, now, rule),
                      gone.reputation, s'.bans, entries', Success(r.value.cleanupErrors))
    ensures CountOf(s'.scores.counts, ip) >= cfg.ipFailures
  {
    hide RoomChoice, RoomFor, Added, SubnetFor, CrossingChoice, Crossed, WithoutCrossing, Lost, CountMatch, CountBans;
    hide ShouldPromote, PromotionBan, ThresholdBan, PlaceStep, CoveredBySubnet;
  }

  /** The record of a promoted subnet: it lasts at least the subnet's own time. */
  lemma PromotionRecord(cfg: Config, s: AggState, entries: set<BanTarget>, ip: IpAddr, weight: u64, rule: string,
                        now: int, gone: Evicted, s': AggState, entries': set<BanTarget>,
                        r: Result<RecordResult, BackendError>, net: IpNet, removed: set<IpAddr>)
    requires RecordStep(cfg, s, entries, ip, weight, rule, now, gone, s', entries', r)
    requires r.Success? && r.value.transitions == [Promoted(net, removed)]
    ensures net == SubnetFor(cfg, ip) && Subnet(net) in s'.bans.active
    ensures
      var b := s'.bans.active[Subnet(net)];
      && b.network == net && b.createdAt == now
      && b.hitCount == (if net in s'.scores.subnets then s'.scores.subnets[net] else 0)
      && b.source == "automatic" && b.reason == "subnet promotion" && b.triggeringRule == Some(rule)
      && NextNumber(s.bans, net, b.offenseCount)
      && b.expiresAt >= now + cfg.subnetBan
      && (b.expiresAt == now + cfg.subnetBan || LastsFor(cfg, b.offenseCount, b.expiresAt - now))
      && (forall seconds: int | LastsFor(cfg, b.offenseCount, seconds) :: b.expiresAt >= now + seconds)
  {
    hide RecordStep, SubnetFor, PlaceStep, PromotionBan, NextNumber, LastsFor;
    PromotionAttempt(cfg, s, entries, ip, weight, rule, now, gone, s', entries', r, net, removed);
    var ban := PromotionBan(cfg, s'.scores, s.bans, net, now, rule);
    PlacedRecord(cfg, s.bans, entries, Subnet(net), ban, gone.reputation, s'.bans, entries', r.value.cleanupErrors);
    PromotionBanIs(cfg, s'.scores, s.bans, net, now, rule);
  }

  lemma PlacedRecord(cfg: Config, before: Bans, entries: set<BanTarget>, target: BanTarget, ban: ActiveBan,
                     forgotten: set<IpNet>, after: Bans, entries': set<BanTarget>, failed: set<IpAddr>)
    requires PlaceStep(cfg, before, entries, target, ban, forgotten, after, entries', Success(failed))
    ensures target in after.active && after.active[target] == ban
  {
    hide TrimChoice, CoveredIps, EntryFor;
  }

  lemma PromotionBanIs(cfg: Config, scores: Scores, bans: Bans, net: IpNet, now: int, rule: string)
    ensures
      var b := PromotionBan(cfg, scores, bans, net, now, rule);
      && b.network == net && b.createdAt == now
      && b.hitCount == (if net in scores.subnets then scores.subnets[net] else 0)
      && b.source == "automatic" && b.reason == "subnet promotion" && b.triggeringRule == Some(rule)
      && NextNumber(bans, net, b.offenseCount) && b.expiresAt >= now + cfg.subnetBan
      && (b.expiresAt == now + cfg.subnetBan || LastsFor(cfg, b.offenseCount, b.expiresAt - now))
      && (forall seconds: int | LastsFor(cfg, b.offenseCount, seconds) :: b.expiresAt >= now + seconds)
  {
  }

  lemma ThresholdBanIs(cfg: Config, scores: Scores, bans: Bans, ip: IpAddr, now: int, rule: string)
    requires ip in scores.counts
    ensures
      var b := ThresholdBan(cfg, scores, bans, ip, now, rule);
      && b.network == HostNetwork(ip) && b.createdAt == now && b.hitCount == scores.counts[ip]
      && b.source == "automatic" && b.reason == "threshold" && b.triggeringRule == Some(rule)
      && NextNumber(bans, HostNetwork(ip), b.offenseCount) && LastsFor(cfg, b.offenseCount, b.expiresAt - now)
  {
  }

  lemma PromotionAttempt(cfg: Config, s: AggState, entries: set<BanTarget>, ip: IpAddr, weight: u64, rule: string,
                         now: int, gone: Evicted, s': AggState, entries': set<BanTarget>,
                         r: Result<RecordResult, BackendError>, net: IpNet, removed: set<IpAddr>)
    requires RecordStep(cfg, s, entries, ip, weight, rule, now, gone, s', entries', r)
    requires r.Success? && r.value.transitions == [Promoted(net, removed)]
    ensures net == SubnetFor(cfg, ip)
    ensures PlaceStep(cfg, s.bans, entries, Subnet(net), PromotionBan(cfg, s'.scores, s.bans, net, now, rule),
                      gone.reputation, s'.bans, entries', Success(r.value.cleanupErrors))
  {
    hide RoomChoice, RoomFor, Added, SubnetFor, CrossingChoice, Crossed, WithoutCrossing, Lost, CountMatch, CountBans;
    hide ShouldPromote, PromotionBan, ThresholdBan, PlaceStep, CoveredBySubnet, CoveredIps;
  }

  /** A manual ban is there afterwards as asked for: from now, for the given time, whatever the
      network did before; the record is also what the caller gets. */
  lemma ManualBanRecord(cfg: Config, s: AggState, entries: set<BanTarget>, target: BanTarget, duration: int,
                        reason: string, now: int, failed: set<IpAddr>, forgotten: set<IpNet>,
                        s': AggState, entries': set<BanTarget>, r: Result<ActiveBan, BackendError>)
    requires AddManualStep(cfg, s, entries, target, duration, reason, now, failed, forgotten, s', entries', r)
    ensures r.Success? ==>
      && target in s'.bans.active && s'.bans.active[target] == r.value
      && r.value.network == NetworkOf(target) && r.value.createdAt == now && r.value.expiresAt == now + duration
      && r.value.source == "manual" && r.value.reason == reason && r.value.hitCount == 1
      && r.value.triggeringRule == None && NextNumber(s.bans, NetworkOf(target), r.value.offenseCount)
    ensures r.Failure? ==> s'.bans == s.bans && entries' == entries
    ensures target.Ip? && IsCoveredNow(s.bans, target.ip) ==> r == Failure(AlreadyCovered)
    ensures r.Failure? && r.error == CapacityReached ==>
              target !in s.bans.active && |s.bans.active| >= cfg.maxActiveBans
    ensures s'.scores == s.scores && s'.rules == s.rules
  {
    hide TrimChoice, Contains, CoveredIps;
  }

  // ---------- Everything else ----------

  /** A placed ban leaves every other ban alone, but for the single addresses it takes over. */
  lemma PlacingKeepsOthers(cfg: Config, before: Bans, entries: set<BanTarget>, target: BanTarget, ban: ActiveBan,
                           forgotten: set<IpNet>, after: Bans, entries': set<BanTarget>, failed: set<IpAddr>,
                           t: BanTarget)
    requires BansAgree(before) && t != target
    requires PlaceStep(cfg, before, entries, target, ban, forgotten, after, entries', Success(failed))
    ensures t in after.active ==> t in before.active && after.active[t] == before.active[t]
    ensures t in before.active ==>
              (t in after.active <==> !(target.Subnet? && t.Ip? && Contains(target.net, t.ip)))
  {
    hide Contains, TrimChoice, EntryFor, IpTargets, CoveredIps, BansAgree;
    if t in before.active {
      TakenOver(before, target, t);
    }
  }

  lemma TakenOver(bans: Bans, target: BanTarget, t: BanTarget)
    requires BansAgree(bans) && t in bans.active
    ensures t in IpTargets(CoveredIps(bans.ips, target)) <==> target.Subnet? && t.Ip? && Contains(target.net, t.ip)
  {
    hide Contains, CoveredBySubnet;
    assert t.Ip? ==> t.ip in bans.ips;
  }

  /** The reputation after a ban: its own network's renewed, every other as it was or dropped,
      and those dropped were banned no later than any that stays. */
  lemma PlacingRemembers(cfg: Config, before: Bans, entries: set<BanTarget>, target: BanTarget, ban: ActiveBan,
                         forgotten: set<IpNet>, after: Bans, entries': set<BanTarget>, failed: set<IpAddr>)
    requires PlaceStep(cfg, before, entries, target, ban, forgotten, after, entries', Success(failed))
    ensures ban.network in after.reputation ==>
              after.reputation[ban.network]
              == ReputationEntry(ban.network, ban.offenseCount, ban.createdAt, ban.createdAt + cfg.reputationRetention)
    ensures forall net | net in after.reputation && net != ban.network ::
              net in before.reputation && after.reputation[net] == before.reputation[net]
    ensures forall net, kept | net in before.reputation && net != ban.network && net !in after.reputation
                               && kept in after.reputation ::
              before.reputation[net].lastBannedAt <= after.reputation[kept].lastBannedAt
    ensures |before.reputation| < cfg.maxReputationEntries ==>
              ban.network in after.reputation && forall net | net in before.reputation :: net in after.reputation
  {
    PlacedReputation(cfg, before, entries, target, ban, forgotten, after, entries', failed);
    hide PlaceStep, TrimChoice;
    RenewedTable(before.reputation, ban.network, EntryFor(cfg, ban), forgotten, cfg.maxReputationEntries);
  }

  lemma PlacedReputation(cfg: Config, before: Bans, entries: set<BanTarget>, target: BanTarget, ban: ActiveBan,
                         forgotten: set<IpNet>, after: Bans, entries': set<BanTarget>, failed: set<IpAddr>)
    requires PlaceStep(cfg, before, entries, target, ban, forgotten, after, entries', Success(failed))
    ensures TrimChoice(cfg.maxReputationEntries, before.reputation[ban.network := EntryFor(cfg, ban)], forgotten)
    ensures after.reputation == before.reputation[ban.network := EntryFor(cfg, ban)] - forgotten
  {
    hide CoveredIps, TrimChoice, EntryFor;
  }

  lemma RenewedTable(table: map<IpNet, ReputationEntry>, own: IpNet, entry: ReputationEntry, gone: set<IpNet>, cap: nat)
    requires TrimChoice(cap, table[own := entry], gone)
    ensures
      var after := table[own := entry] - gone;
      && (own in after ==> after[own] == entry)
      && (forall net | net in after && net != own :: net in table && after[net] == table[net])
      && (forall net, kept | net in table && net != own && net !in after && kept in after ::
            table[net].lastBannedAt <= after[kept].lastBannedAt)
      && (|table| < cap ==> own in after && forall net | net in table :: net in after)
  {
    hide TrimChoice;
    OneMoreKey(table, own, entry);
    TrimsOldest(table[own := entry], gone, cap);
  }

  lemma TrimsOldest(table: map<IpNet, ReputationEntry>, gone: set<IpNet>, cap: nat)
    requires TrimChoice(cap, table, gone)
    ensures |table| <= cap ==> gone == {}
    ensures forall net, kept | net in table && net in gone && kept in table && kept !in gone ::
              table[net].lastBannedAt <= table[kept].lastBannedAt
  {
    assert |table| <= cap ==> |gone| == 0;
  }
}
