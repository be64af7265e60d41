/** What the aggregator promises about its bans: nothing is unbanned by banning, an offender
    over the threshold is banned, the backend holds every ban, repeated bans escalate, and
    exceptions are respected. */
module AggregateBans {
  import opened Wrappers
  import opened Networks
  import opened Collections
  import opened Counters
  import opened Eviction
  import opened AggregateState
  import opened AggregateSteps
  import opened AggregateInvariants

  // ---------- The set of banned addresses ----------

  /** A placed ban adds exactly the addresses of its target, although the single-address
      records it covers go. */
  lemma PlacedBansExactly(cfg: Config, bans: Bans, target: BanTarget, ban: ActiveBan, forgotten: set<IpNet>, ip: IpAddr)
    ensures IsBanned(Placed(cfg, bans, target, ban, forgotten), ip)
       <==> IsBanned(bans, ip) || Contains(NetworkOf(target), ip)
  {
    if target.Ip? {
      HostContains(target.ip, ip);
    } else {
      assert target.net in bans.nets + {target.net};
    }
    hide Contains;
  }

  /** The networks a successful `record` bans. */
  function NewlyBanned(r: Result<RecordResult, BackendError>): set<IpNet> {
    if r.Failure? then {} else
      set t | t in r.value.transitions :: match t case Banned(target) => NetworkOf(target) case Promoted(net, _) => net
  }

  /** `record` changes the set of banned addresses by exactly what it reports, so it never
      unbans anything, on success or failure. */
  lemma RecordBansExactly(cfg: Config, s: AggState, entries: set<BanTarget>, ip: IpAddr, weight: u64, rule: string,
                          now: int, gone: Evicted, s': AggState, entries': set<BanTarget>,
                          r: Result<RecordResult, BackendError>, a: IpAddr)
    requires RecordStep(cfg, s, entries, ip, weight, rule, now, gone, s', entries', r)
    ensures IsBanned(s'.bans, a) <==> IsBanned(s.bans, a) || exists net | net in NewlyBanned(r) :: Contains(net, a)
  {
    hide Regroup, RoomChoice, RoomFor, Added, ShouldPromote, CrossingChoice, Crossed, WithoutCrossing, TrimChoice;
    hide Placed, CoveredIps, SubnetFor;
    if r.Success? && r.value.transitions != [] {
      var net := SubnetFor(cfg, ip);
      if ShouldPromote(cfg, s'.scores, s.bans, ip) {
        var ban := PromotionBan(cfg, s'.scores, s.bans, net, now, rule);
        PlacedBansExactly(cfg, s.bans, Subnet(net), ban, gone.reputation, a);
        assert r.value.transitions[0] in r.value.transitions;
        assert NewlyBanned(r) == {net};
      } else {
        var ban := ThresholdBan(cfg, s'.scores, s.bans, ip, now, rule);
        PlacedBansExactly(cfg, s.bans, Ip(ip), ban, gone.reputation, a);
        assert r.value.transitions[0] in r.value.transitions;
        assert NewlyBanned(r) == {HostNetwork(ip)};
      }
    }
  }

  lemma ManualBansExactly(cfg: Config, s: AggState, entries: set<BanTarget>, target: BanTarget, duration: int,
                          reason: string, now: int, failed: set<IpAddr>, forgotten: set<IpNet>,
                          s': AggState, entries': set<BanTarget>, r: Result<ActiveBan, BackendError>, a: IpAddr)
    requires AddManualStep(cfg, s, entries, target, duration, reason, now, failed, forgotten, s', entries', r)
    ensures IsBanned(s'.bans, a) <==> IsBanned(s.bans, a) || (r.Success? && Contains(NetworkOf(target), a))
  {
    if r.Success? {
      PlacedBansExactly(cfg, s.bans, target, ManualBan(cfg, s.bans, target, duration, reason, now), forgotten, a);
    }
    hide Placed, TrimChoice, Contains;
  }

  /** After a successful `record`, an address at or over the threshold is banned, by itself or
      by a subnet. */
  lemma ThresholdIsBanned(cfg: Config, s: AggState, entries: set<BanTarget>, ip: IpAddr, weight: u64, rule: string,
                          now: int, gone: Evicted, s': AggState, entries': set<BanTarget>,
                          r: Result<RecordResult, BackendError>)
    requires RecordStep(cfg, s, entries, ip, weight, rule, now, gone, s', entries', r)
    requires r.Success? && CountOf(s'.scores.counts, ip) >= cfg.ipFailures
    ensures IsBanned(s'.bans, ip)
  {
    SubnetContains(cfg, ip, ip);
    hide Regroup, RoomChoice, RoomFor, Added, ShouldPromote, CrossingChoice, Crossed, WithoutCrossing, TrimChoice;
    hide SubnetFor, Contains;
    if !CoveredBySubnet(s.bans, ip) && ShouldPromote(cfg, s'.scores, s.bans, ip) {
      assert SubnetFor(cfg, ip) in s'.bans.nets;
    }
  }

  // ---------- The backend ----------

  ghost predicate Backed(bans: Bans, entries: set<BanTarget>) {
    bans.active.Keys <= entries
  }

  function Surplus(bans: Bans, entries: set<BanTarget>): set<BanTarget> {
    entries - bans.active.Keys
  }

  lemma SwappedEntries(active: set<BanTarget>, entries: set<BanTarget>, target: BanTarget,
                       covered: set<IpAddr>, failed: set<IpAddr>)
    requires failed <= covered && active <= entries
    requires IpTargets(covered) <= active && target !in IpTargets(covered)
    ensures
      var active' := active - IpTargets(covered) + {target};
      var entries' := entries + {target} - IpTargets(covered - failed);
      active' <= entries' && entries' - active' == (entries - active - {target}) + IpTargets(failed)
  {
  }

  lemma PlacedActive(cfg: Config, bans: Bans, target: BanTarget, ban: ActiveBan, forgotten: set<IpNet>)
    requires BansAgree(bans)
    ensures
      var covered := CoveredIps(bans.ips, target);
      && IpTargets(covered) <= bans.active.Keys && target !in IpTargets(covered)
      && Placed(cfg, bans, target, ban, forgotten).active.Keys == bans.active.Keys - IpTargets(covered) + {target}
      && forall ip | ip in covered :: CoveredBySubnet(Placed(cfg, bans, target, ban, forgotten), ip)
  {
    hide Contains, EntryFor;
    assert target.Subnet? ==> target.net in Placed(cfg, bans, target, ban, forgotten).nets;
  }

  /** Placing a ban keeps every ban backed; what becomes surplus in the backend is exactly the
      covered addresses whose removal failed, all inside the banned subnet. */
  lemma PlaceStepBacked(cfg: Config, bans: Bans, entries: set<BanTarget>, target: BanTarget, ban: ActiveBan,
                        forgotten: set<IpNet>, bans': Bans, entries': set<BanTarget>,
                        outcome: Result<set<IpAddr>, BackendError>)
    requires BansAgree(bans) && Backed(bans, entries)
    requires PlaceStep(cfg, bans, entries, target, ban, forgotten, bans', entries', outcome)
    ensures Backed(bans', entries')
    ensures Surplus(bans', entries') == match outcome
      case Failure(_) => Surplus(bans, entries)
      case Success(failed) => Surplus(bans, entries) - {target} + IpTargets(failed)
    ensures outcome.Success? ==> forall ip | ip in outcome.value :: CoveredBySubnet(bans', ip)
  {
    hide TrimChoice, Placed, CoveredIps, BansAgree, CoveredBySubnet, IpTargets;
    if outcome.Success? {
      PlacedActive(cfg, bans, target, ban, forgotten);
      SwappedEntries(bans.active.Keys, entries, target, CoveredIps(bans.ips, target), outcome.value);
    }
  }

  function CleanupErrors(r: Result<RecordResult, BackendError>): set<IpAddr> {
    if r.Success? then r.value.cleanupErrors else {}
  }

  lemma RecordBacked(cfg: Config, s: AggState, entries: set<BanTarget>, ip: IpAddr, weight: u64, rule: string,
                     now: int, gone: Evicted, s': AggState, entries': set<BanTarget>,
                     r: Result<RecordResult, BackendError>)
    requires Agrees(cfg, s) && Backed(s.bans, entries)
    requires RecordStep(cfg, s, entries, ip, weight, rule, now, gone, s', entries', r)
    ensures Backed(s'.bans, entries')
    ensures Surplus(s'.bans, entries') <= Surplus(s.bans, entries) + IpTargets(CleanupErrors(r))
    ensures IpTargets(CleanupErrors(r)) <= Surplus(s'.bans, entries')
    ensures forall a | a in CleanupErrors(r) :: CoveredBySubnet(s'.bans, a)
  {
    var attempt := RecordAttempts(cfg, s, entries, ip, weight, rule, now, gone, s', entries', r);
    hide RecordStep, AttemptOf, PlaceStep, Surplus, CoveredBySubnet, BansAgree, Backed, SubnetFor;
    if attempt.Some? {
      PlaceStepBacked(cfg, s.bans, entries, attempt.value.target, attempt.value.ban, gone.reputation,
                      s'.bans, entries', FailedRemovals(r));
    }
  }

  lemma AddManualBacked(cfg: Config, s: AggState, entries: set<BanTarget>, target: BanTarget, duration: int,
                        reason: string, now: int, failed: set<IpAddr>, forgotten: set<IpNet>,
                        s': AggState, entries': set<BanTarget>, r: Result<ActiveBan, BackendError>)
    requires BansAgree(s.bans) && Backed(s.bans, entries)
    requires AddManualStep(cfg, s, entries, target, duration, reason, now, failed, forgotten, s', entries', r)
    ensures Backed(s'.bans, entries')
    ensures Surplus(s'.bans, entries') <= Surplus(s.bans, entries) + IpTargets(failed)
    ensures r.Success? ==> forall a | a in failed :: CoveredBySubnet(s'.bans, a)
    ensures r.Failure? ==> Surplus(s'.bans, entries') == Surplus(s.bans, entries)
  {
    hide PlaceStep, CoveredBySubnet, BansAgree, Backed, Surplus;
    if !(target.Ip? && CoveredBySubnet(s.bans, target.ip)) {
      PlaceStepBacked(cfg, s.bans, entries, target, ManualBan(cfg, s.bans, target, duration, reason, now), forgotten,
                      s'.bans, entries', match r case Success(_) => Success(failed) case Failure(e) => Failure(e));
    }
  }

  /** Lifting bans, completely or part way, leaves no surplus entry behind. */
  lemma CleanupBacked(cfg: Config, s: AggState, entries: set<BanTarget>, now: int, gone: set<BanTarget>,
                      s': AggState, entries': set<BanTarget>, r: Result<set<BanTarget>, BackendError>)
    requires Backed(s.bans, entries) && CleanupStep(cfg, s, entries, now, gone, s', entries', r)
    ensures Backed(s'.bans, entries') && Surplus(s'.bans, entries') == Surplus(s.bans, entries)
  {
    hide LiveScores;
    assert Expired(s.bans, now) <= s.bans.active.Keys;
  }

  lemma ApplyExceptionsBacked(cfg: Config, s: AggState, entries: set<BanTarget>, exceptions: seq<IpNet>,
                              gone: set<BanTarget>, s': AggState, entries': set<BanTarget>,
                              r: Result<set<BanTarget>, BackendError>)
    requires Backed(s.bans, entries)
    requires ApplyExceptionsStep(cfg, s, entries, exceptions, gone, s', entries', r)
    ensures Backed(s'.bans, entries') && Surplus(s'.bans, entries') == Surplus(s.bans, entries)
  {
    hide UnexceptedScores, IsExcepted;
    assert ExceptedTargets(s.bans, exceptions) <= s.bans.active.Keys;
  }

  // ---------- Escalation ----------

  /** Later offenses never get shorter bans. */
  lemma LongerBans(cfg: Config, fewer: u32, more: u32)
    requires 1 <= fewer <= more
    ensures BanSeconds(cfg, fewer) <= BanSeconds(cfg, more) <= cfg.maxBan
  {
  }

  /** The relations between durations that policy validation enforces. */
  predicate TunedDurations(cfg: Config) {
    cfg.subnetBan <= cfg.maxBan < cfg.reputationRetention
  }

  /** A network's reputation, while remembered, carries its active ban's offense count and
      lasts longer than the ban. */
  ghost predicate ReputationOutlives(bans: Bans) {
    forall t | t in bans.active && bans.active[t].network in bans.reputation ::
      && bans.reputation[bans.active[t].network].offenseCount == bans.active[t].offenseCount
      && bans.reputation[bans.active[t].network].retainUntil > bans.active[t].expiresAt
  }

  /** Two active targets never share a network. */
  lemma OneTargetPerNetwork(bans: Bans, t: BanTarget, u: BanTarget)
    requires BansAgree(bans) && t in bans.active && u in bans.active && NetworkOf(t) == NetworkOf(u)
    ensures t == u
  {
    if t.Ip? {
      HostContains(t.ip, t.ip);
    }
    if u.Ip? {
      HostContains(u.ip, u.ip);
    }
    assert forall v | v in bans.active && v.Subnet? :: v.net in bans.nets;
  }

  lemma PlacedOutlives(cfg: Config, bans: Bans, target: BanTarget, ban: ActiveBan, forgotten: set<IpNet>)
    requires BansAgree(bans) && ReputationOutlives(bans) && ban.network == NetworkOf(target)
    requires target.Ip? ==> !CoveredBySubnet(bans, target.ip)
    requires ban.expiresAt < ban.createdAt + cfg.reputationRetention
    ensures ReputationOutlives(Placed(cfg, bans, target, ban, forgotten))
  {
    var after := Placed(cfg, bans, target, ban, forgotten);
    PlacedAgrees(cfg, bans, target, ban, forgotten);
    hide BansAgree, CoveredBySubnet, IpTargets, CoveredIps;
    forall t | t in after.active && after.active[t].network in after.reputation
      ensures after.reputation[after.active[t].network].offenseCount == after.active[t].offenseCount
      ensures after.reputation[after.active[t].network].retainUntil > after.active[t].expiresAt
    {
      if t != target {
        KeptRecord(bans, after, t);
        if after.active[t].network == ban.network {
          OneTargetPerNetwork(after, t, target);
        }
      }
    }
  }

  lemma KeptRecord(bans: Bans, after: Bans, t: BanTarget)
    requires BansAgree(bans) && BansAgree(after) && t in after.active
    requires t in bans.active
    ensures after.active[t].network == NetworkOf(t) == bans.active[t].network
  {
  }

  /** Every automatic ban, and every manual ban no longer than the longest automatic one, keeps
      reputations outliving bans. */
  lemma RecordOutlives(cfg: Config, s: AggState, entries: set<BanTarget>, ip: IpAddr, weight: u64, rule: string,
                       now: int, gone: Evicted, s': AggState, entries': set<BanTarget>,
                       r: Result<RecordResult, BackendError>)
    requires TunedDurations(cfg) && Agrees(cfg, s) && ReputationOutlives(s.bans)
    requires RecordStep(cfg, s, entries, ip, weight, rule, now, gone, s', entries', r)
    ensures ReputationOutlives(s'.bans)
  {
    var attempt := RecordAttempts(cfg, s, entries, ip, weight, rule, now, gone, s', entries', r);
    hide RecordStep, AttemptOf, CoveredBySubnet, BansAgree, ReputationOutlives, Placed, TrimChoice, CoveredIps,
         SubnetFor;
    if attempt.Some? && r.Success? {
      PlacedOutlives(cfg, s.bans, attempt.value.target, attempt.value.ban, gone.reputation);
    }
  }

  lemma AddManualOutlives(cfg: Config, s: AggState, entries: set<BanTarget>, target: BanTarget, duration: int,
                          reason: string, now: int, failed: set<IpAddr>, forgotten: set<IpNet>,
                          s': AggState, entries': set<BanTarget>, r: Result<ActiveBan, BackendError>)
    requires TunedDurations(cfg) && duration <= cfg.maxBan && BansAgree(s.bans) && ReputationOutlives(s.bans)
    requires AddManualStep(cfg, s, entries, target, duration, reason, now, failed, forgotten, s', entries', r)
    ensures ReputationOutlives(s'.bans)
  {
    hide CoveredBySubnet, BansAgree, ReputationOutlives, Placed, TrimChoice, CoveredIps;
    if r.Success? {
      PlacedOutlives(cfg, s.bans, target, ManualBan(cfg, s.bans, target, duration, reason, now), forgotten);
    }
  }

  /** An expiry pass never forgets the reputation of a network that is still banned. */
  lemma CleanupKeepsBannedReputation(cfg: Config, s: AggState, now: int, t: BanTarget)
    requires BansAgree(s.bans) && ReputationOutlives(s.bans)
    requires t in CleanedUp(cfg, s, now).bans.active && NetworkOf(t) in s.bans.reputation
    ensures NetworkOf(t) in CleanedUp(cfg, s, now).bans.reputation
    ensures ReputationOutlives(CleanedUp(cfg, s, now).bans)
  {
    hide LiveScores;
    assert t !in Expired(s.bans, now);
  }
}
