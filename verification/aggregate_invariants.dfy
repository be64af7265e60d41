/** The tables of the aggregator agree and stay within their caps after every operation, on
    success and on failure. */
module AggregateInvariants {
  import opened Wrappers
  import opened Networks
  import opened Collections
  import opened Counters
  import opened Eviction
  import opened AggregateState
  import opened AggregateSteps

  // ---------- Scores ----------

  lemma ForgottenAgrees(cfg: Config, s: Scores, ip: IpAddr, now: int)
    requires ScoresAgree(cfg, s)
    ensures ScoresAgree(cfg, Forgotten(cfg, s, ip, now))
    ensures Forgotten(cfg, s, ip, now).counts.Keys <= s.counts.Keys
  {
    hide Regroup;
  }

  lemma WithoutIpsAgrees(cfg: Config, s: Scores, gone: set<IpAddr>)
    requires ScoresAgree(cfg, s)
    ensures ScoresAgree(cfg, WithoutIps(cfg, s, gone))
    ensures WithoutIps(cfg, s, gone).counts == s.counts - gone
  {
    hide Regroup;
  }

  /** While `record` runs, the address it accounts may be seen before it has a score. */
  ghost predicate AgreesBut(cfg: Config, s: Scores, ip: IpAddr) {
    s.lastSeen.Keys == s.counts.Keys + {ip} && s.subnets == Regroup(cfg, s.counts)
  }

  /** A subnet of the index holds exactly the scores grouped under it. */
  lemma IndexedInside(cfg: Config, counts: map<IpAddr, u64>, net: IpNet)
    requires net in Regroup(cfg, counts)
    ensures Inside(counts, net) == InGroup(counts, SubnetKey(cfg), net)
    ensures net in GroupsOf(counts.Keys, SubnetKey(cfg))
    ensures forall ip | ip in counts && SubnetFor(cfg, ip) == net :: ip in Inside(counts, net)
  {
    hide SubnetFor, Contains;
    var ip :| ip in counts && SubnetKey(cfg)(ip) == net;
    InsideIsGroup(cfg, counts, ip);
  }

  lemma WithoutSubnetAgrees(cfg: Config, s: Scores, ip: IpAddr, gone: Option<IpNet>)
    requires AgreesBut(cfg, s, ip)
    requires gone.Some? ==> gone.value in s.subnets && SubnetFor(cfg, ip) !in s.subnets
    ensures AgreesBut(cfg, WithoutSubnet(s, gone), ip)
    ensures gone.Some? ==> WithoutSubnet(s, gone).subnets.Keys == s.subnets.Keys - {gone.value}
  {
    if gone.Some? {
      NewSubnetNewIp(cfg, s.counts, ip);
      DropSubnetAgrees(cfg, s, ip, gone.value);
    }
  }

  lemma DropSubnetAgrees(cfg: Config, s: Scores, ip: IpAddr, net: IpNet)
    requires AgreesBut(cfg, s, ip) && net in s.subnets && ip !in s.counts
    ensures AgreesBut(cfg, WithoutSubnet(s, Some(net)), ip)
    ensures WithoutSubnet(s, Some(net)).subnets.Keys == s.subnets.Keys - {net}
  {
    hide SubnetFor, Contains;
    IndexedInside(cfg, s.counts, net);
    DropGroup(s.counts, SubnetKey(cfg), net);
    KeysWithout(s.counts, s.lastSeen, ip, Inside(s.counts, net).Keys);
    hide Inside, InGroup, GroupTotals;
  }

  lemma KeysWithout(counts: map<IpAddr, u64>, lastSeen: map<IpAddr, int>, ip: IpAddr, gone: set<IpAddr>)
    requires lastSeen.Keys == counts.Keys + {ip} && gone <= counts.Keys && ip !in counts
    ensures (lastSeen - gone).Keys == (counts - gone).Keys + {ip}
  {
  }

  lemma NewSubnetNewIp(cfg: Config, counts: map<IpAddr, u64>, ip: IpAddr)
    requires SubnetFor(cfg, ip) !in Regroup(cfg, counts)
    ensures ip !in counts
  {
    hide SubnetFor;
    assert ip in counts ==> SubnetKey(cfg)(ip) in GroupsOf(counts.Keys, SubnetKey(cfg));
  }

  lemma AddedAgrees(cfg: Config, s: Scores, ip: IpAddr, weight: u64)
    requires AgreesBut(cfg, s, ip)
    ensures ScoresAgree(cfg, Added(cfg, s, ip, weight))
  {
    hide GroupTotals;
    BumpKeepsTotals(s.counts, SubnetKey(cfg), ip, weight);
  }

  lemma TrackedAgrees(cfg: Config, s: Scores, ip: IpAddr, now: int, gone: Evicted)
    requires ScoresAgree(cfg, s)
    ensures AgreesBut(cfg, TrackedFor(cfg, s, ip, now, gone), ip)
  {
    ForgottenAgrees(cfg, s, ip, now);
    WithoutIpsAgrees(cfg, Forgotten(cfg, s, ip, now), gone.ips);
    hide Regroup, Forgotten, WithoutIps;
  }

  /** The index stays equal to the regrouped scores whatever is evicted on the way. */
  lemma ScoringAgrees(cfg: Config, s: Scores, ip: IpAddr, weight: u64, now: int, gone: Evicted)
    requires ScoresAgree(cfg, s) && RoomChoice(cfg, s, ip, now, gone)
    ensures ScoresAgree(cfg, Added(cfg, RoomFor(cfg, s, ip, now, gone), ip, weight))
  {
    TrackedAgrees(cfg, s, ip, now, gone);
    hide Regroup, TrackedFor, SubnetFor, NoLater, LruChoice;
    WithoutSubnetAgrees(cfg, TrackedFor(cfg, s, ip, now, gone), ip, gone.subnet);
    AddedAgrees(cfg, RoomFor(cfg, s, ip, now, gone), ip, weight);
  }

  // ---------- Bans ----------

  lemma PlacedAgrees(cfg: Config, bans: Bans, target: BanTarget, ban: ActiveBan, forgotten: set<IpNet>)
    requires BansAgree(bans) && ban.network == NetworkOf(target)
    requires target.Ip? ==> !CoveredBySubnet(bans, target.ip)
    ensures BansAgree(Placed(cfg, bans, target, ban, forgotten))
  {
    PlacedTargets(cfg, bans, target, ban, forgotten);
    hide Contains, IpTargets, SubnetTargets;
    var after := Placed(cfg, bans, target, ban, forgotten);
    assert forall t | t in after.active :: after.active[t].network == NetworkOf(t);
  }

  lemma PlacedTargets(cfg: Config, bans: Bans, target: BanTarget, ban: ActiveBan, forgotten: set<IpNet>)
    requires bans.active.Keys == IpTargets(bans.ips) + SubnetTargets(bans.nets)
    ensures
      var after := Placed(cfg, bans, target, ban, forgotten);
      after.active.Keys == IpTargets(after.ips) + SubnetTargets(after.nets)
  {
    hide Contains;
  }

  lemma WithoutTargetsAgrees(bans: Bans, gone: set<BanTarget>)
    requires BansAgree(bans)
    ensures BansAgree(WithoutTargets(bans, gone))
  {
    hide Contains;
    var after := WithoutTargets(bans, gone);
    assert after.active.Keys == IpTargets(after.ips) + SubnetTargets(after.nets);
  }

  lemma PlaceStepAgrees(cfg: Config, bans: Bans, entries: set<BanTarget>, target: BanTarget, ban: ActiveBan,
                        forgotten: set<IpNet>, bans': Bans, entries': set<BanTarget>,
                        outcome: Result<set<IpAddr>, BackendError>)
    requires BansAgree(bans) && ban.network == NetworkOf(target)
    requires target.Ip? ==> !CoveredBySubnet(bans, target.ip)
    requires PlaceStep(cfg, bans, entries, target, ban, forgotten, bans', entries', outcome)
    ensures BansAgree(bans')
  {
    if outcome.Success? {
      PlacedAgrees(cfg, bans, target, ban, forgotten);
    }
  }

  /** The one ban that `record` attempts, if any. */
  datatype Attempt = Attempt(target: BanTarget, ban: ActiveBan)

  function AttemptOf(cfg: Config, s: AggState, s': AggState, ip: IpAddr, rule: string, now: int): Option<Attempt> {
    var net := SubnetFor(cfg, ip);
    if CoveredBySubnet(s.bans, ip) then None
    else if ShouldPromote(cfg, s'.scores, s.bans, ip) then
      Some(Attempt(Subnet(net), PromotionBan(cfg, s'.scores, s.bans, net, now, rule)))
    else if CountOf(s'.scores.counts, ip) >= cfg.ipFailures && ip !in s.bans.ips then
      Some(Attempt(Ip(ip), ThresholdBan(cfg, s'.scores, s.bans, ip, now, rule)))
    else None
  }

  function FailedRemovals(r: Result<RecordResult, BackendError>): Result<set<IpAddr>, BackendError> {
    match r case Success(x) => Success(x.cleanupErrors) case Failure(e) => Failure(e)
  }

  lemma RecordAttempts(cfg: Config, s: AggState, entries: set<BanTarget>, ip: IpAddr, weight: u64, rule: string,
                       now: int, gone: Evicted, s': AggState, entries': set<BanTarget>,
                       r: Result<RecordResult, BackendError>)
    returns (attempt: Option<Attempt>)
    requires RecordStep(cfg, s, entries, ip, weight, rule, now, gone, s', entries', r)
    ensures attempt == AttemptOf(cfg, s, s', ip, rule, now)
    ensures attempt.None? ==> s'.bans == s.bans && entries' == entries && r == Success(RecordResult([], {}))
    ensures attempt.Some? ==>
      && !CoveredBySubnet(s.bans, ip)
      && (attempt.value.target == Ip(ip) || attempt.value.target == Subnet(SubnetFor(cfg, ip)))
      && attempt.value.ban.network == NetworkOf(attempt.value.target)
      && attempt.value.ban.createdAt == now
      && attempt.value.ban.offenseCount == OffenseCount(s.bans, attempt.value.ban.network)
      && (attempt.value.ban.expiresAt <= now + cfg.maxBan || attempt.value.ban.expiresAt == now + cfg.subnetBan)
      && PlaceStep(cfg, s.bans, entries, attempt.value.target, attempt.value.ban, gone.reputation,
                   s'.bans, entries', FailedRemovals(r))
  {
    hide Regroup, RoomChoice, RoomFor, Added, SubnetFor, PlaceStep, ShouldPromote, CrossingChoice, Crossed;
    hide WithoutCrossing, CoveredBySubnet, OffenseCount;
    attempt := AttemptOf(cfg, s, s', ip, rule, now);
  }

  // ---------- Every operation ----------

  lemma RecordAgrees(cfg: Config, s: AggState, entries: set<BanTarget>, ip: IpAddr, weight: u64, rule: string,
                     now: int, gone: Evicted, s': AggState, entries': set<BanTarget>,
                     r: Result<RecordResult, BackendError>)
    requires Agrees(cfg, s)
    requires RecordStep(cfg, s, entries, ip, weight, rule, now, gone, s', entries', r)
    ensures Agrees(cfg, s')
  {
    ScoringAgrees(cfg, s.scores, ip, weight, now, gone);
    var attempt := RecordAttempts(cfg, s, entries, ip, weight, rule, now, gone, s', entries', r);
    if attempt.Some? {
      PlaceStepAgrees(cfg, s.bans, entries, attempt.value.target, attempt.value.ban, gone.reputation,
                      s'.bans, entries', FailedRemovals(r));
    }
    hide Regroup, RoomChoice, RoomFor, Added, SubnetFor, BanStep, AttemptOf, Crossed, CoveredBySubnet, PlaceStep;
  }

  lemma AddManualAgrees(cfg: Config, s: AggState, entries: set<BanTarget>, target: BanTarget, duration: int,
                        reason: string, now: int, failed: set<IpAddr>, forgotten: set<IpNet>,
                        s': AggState, entries': set<BanTarget>, r: Result<ActiveBan, BackendError>)
    requires Agrees(cfg, s)
    requires AddManualStep(cfg, s, entries, target, duration, reason, now, failed, forgotten, s', entries', r)
    ensures Agrees(cfg, s')
  {
    hide PlaceStep;
    if !(target.Ip? && CoveredBySubnet(s.bans, target.ip)) {
      PlaceStepAgrees(cfg, s.bans, entries, target, ManualBan(cfg, s.bans, target, duration, reason, now), forgotten,
                      s'.bans, entries', match r case Success(_) => Success(failed) case Failure(e) => Failure(e));
    }
  }

  lemma CleanupAgrees(cfg: Config, s: AggState, entries: set<BanTarget>, now: int, gone: set<BanTarget>,
                      s': AggState, entries': set<BanTarget>, r: Result<set<BanTarget>, BackendError>)
    requires Agrees(cfg, s) && CleanupStep(cfg, s, entries, now, gone, s', entries', r)
    ensures Agrees(cfg, s')
  {
    WithoutTargetsAgrees(s.bans, if r.Success? then Expired(s.bans, now) else gone);
    hide Regroup, WithoutTargets, CoveredBySubnet, LiveOffenders;
  }

  lemma ApplyExceptionsAgrees(cfg: Config, s: AggState, entries: set<BanTarget>, exceptions: seq<IpNet>,
                              gone: set<BanTarget>, s': AggState, entries': set<BanTarget>,
                              r: Result<set<BanTarget>, BackendError>)
    requires Agrees(cfg, s) && ApplyExceptionsStep(cfg, s, entries, exceptions, gone, s', entries', r)
    ensures Agrees(cfg, s')
  {
    WithoutTargetsAgrees(s.bans, if r.Success? then ExceptedTargets(s.bans, exceptions) else gone);
    hide Regroup, WithoutTargets, CoveredBySubnet, UnexceptedOffenders, IsException, IsCovered;
  }

  lemma ResetAgrees(cfg: Config, s: AggState, target: BanTarget)
    requires Agrees(cfg, s)
    ensures Agrees(cfg, ResetDone(cfg, s, target))
  {
    hide Regroup, Contains;
  }
}
