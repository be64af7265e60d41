/** The aggregator of the Ban Shield engine: scores, bans, reputation and promotion history,
    updated in place.  Every method is tied to its step relation. */
module Aggregation {
  import opened Wrappers
  import opened Networks
  import opened Collections
  import opened Counters
  import opened Eviction
  import opened AggregateState
  import opened AggregateSteps
  import opened Backend
  import opened Persistence

  class Aggregator {
    var config: Config
    var ipCounts: map<IpAddr, u64>
    var subnetCounts: map<IpNet, u64>
    var bannedIps: set<IpAddr>
    var bannedSubnets: set<IpNet>
    var activeBans: map<BanTarget, ActiveBan>
    var lastSeen: map<IpAddr, int>
    var reputation: map<IpNet, ReputationEntry>
    var subnetOffenders: Offenders
    var evictionCount: u64
    var ruleStats: map<string, RuleStats>

    function ScoresView(): Scores
      reads this
    {
      Scores(ipCounts, lastSeen, subnetCounts, subnetOffenders)
    }

    function BansView(): Bans
      reads this
    {
      Bans(bannedIps, bannedSubnets, activeBans, reputation)
    }

    function View(): AggState
      reads this
    {
      AggState(ScoresView(), BansView(), evictionCount, ruleStats)
    }

    ghost predicate Valid()
      reads this
    {
      Agrees(config, View())
    }

    constructor (config: Config)
      ensures this.config == config && View() == EMPTY
    {
      this.config := config;
      ipCounts, subnetCounts, bannedIps, bannedSubnets, activeBans := map[], map[], {}, {}, map[];
      lastSeen, reputation, subnetOffenders, evictionCount, ruleStats := map[], map[], map[], 0, map[];
    }

    method RebuildSubnetCounts()
      modifies this`subnetCounts
      ensures subnetCounts == Regroup(config, ipCounts)
    {
      subnetCounts := map[];
      var todo := ipCounts.Keys;
      assert ipCounts - todo == map[];
      while todo != {}
        invariant todo <= ipCounts.Keys
        invariant subnetCounts == Regroup(config, ipCounts - todo)
      {
        var ip :| ip in todo;
        RegroupOneMore(config, ipCounts, todo, ip);
        subnetCounts := Bumped(subnetCounts, SubnetFor(config, ip), ipCounts[ip]);
        todo := todo - {ip};
      }
      assert ipCounts - todo == ipCounts;
    }

    method Reconfigure(config: Config)
      modifies this`config, this`subnetCounts
      ensures this.config == config
      ensures View() == old(View()).(scores := old(ScoresView()).(subnets := Regroup(config, ipCounts)))
    {
      this.config := config;
      RebuildSubnetCounts();
    }

    // ---------- Making room ----------

    method MakeRoomForIp(ip: IpAddr) returns (evicted: bool, ghost gone: set<IpAddr>)
      requires ipCounts.Keys == lastSeen.Keys
      modifies this`ipCounts, this`lastSeen, this`evictionCount
      ensures ipCounts == old(ipCounts) - gone && lastSeen == old(lastSeen) - gone
      ensures LruChoice(config, old(ScoresView()), ip, gone)
      ensures evicted <==> gone != {}
      ensures evictionCount == SatAdd(old(evictionCount), |gone|)
    {
      hide OldestGone, IsOldest, Size;
      evicted, gone := false, {};
      ghost var n := 0;
      NothingGone(lastSeen);
      if ip in ipCounts {
        return;
      }
      while Size(ipCounts) >= config.maxTrackedIps
        invariant ipCounts == old(ipCounts) - gone && lastSeen == old(lastSeen) - gone
        invariant OldestGone(old(lastSeen), gone, n) && ipCounts.Keys == lastSeen.Keys
        invariant evicted <==> n > 0
        invariant n > 0 ==> Size(ipCounts) >= config.maxTrackedIps - 1
        invariant evictionCount == SatAdd(old(evictionCount), n)
        decreases Size(ipCounts)
      {
        ghost var first := OldestKey(ipCounts, lastSeen);
        var oldest :| IsOldest(lastSeen, oldest);
        OneMoreGone(old(lastSeen), gone, n, oldest);
        RemoveOneMore(old(lastSeen), gone, oldest);
        RemoveOneMore(old(ipCounts), gone, oldest);
        ipCounts := ipCounts - {oldest};
        lastSeen := lastSeen - {oldest};
        evictionCount := SatAdd(evictionCount, 1);
        evicted := true;
        gone, n := gone + {oldest}, n + 1;
      }
      LruDone(config, old(ScoresView()), ip, gone, n);
    }

    method TrimReputation() returns (ghost gone: set<IpNet>)
      modifies this`reputation, this`evictionCount
      ensures reputation == old(reputation) - gone
      ensures TrimChoice(config.maxReputationEntries, old(reputation), gone)
      ensures evictionCount == SatAdd(old(evictionCount), |gone|)
    {
      hide OldestGone, IsOldest, Size, BannedTimes;
      gone := {};
      ghost var n := 0;
      NothingGone(BannedTimes(reputation));
      while Size(reputation) > config.maxReputationEntries
        invariant reputation == old(reputation) - gone
        invariant OldestGone(BannedTimes(old(reputation)), gone, n)
        invariant n > 0 ==> Size(reputation) >= config.maxReputationEntries
        invariant evictionCount == SatAdd(old(evictionCount), n)
        decreases Size(reputation)
      {
        BannedTimesWithout(old(reputation), gone);
        ghost var first := OldestKey(reputation, BannedTimes(reputation));
        var oldest :| IsOldest(BannedTimes(reputation), oldest);
        OneMoreGone(BannedTimes(old(reputation)), gone, n, oldest);
        RemoveOneMore(old(reputation), gone, oldest);
        reputation := reputation - {oldest};
        evictionCount := SatAdd(evictionCount, 1);
        gone, n := gone + {oldest}, n + 1;
      }
      TrimDone(config.maxReputationEntries, old(reputation), gone, n);
    }

    method MakeRoomForSubnet(subnet: IpNet) returns (ghost gone: Option<IpNet>)
      modifies this`ipCounts, this`lastSeen, this`subnetCounts, this`subnetOffenders, this`evictionCount
      ensures SubnetChoice(config, old(ScoresView()), subnet, gone)
      ensures ScoresView() == WithoutSubnet(old(ScoresView()), gone)
      ensures evictionCount
           == SatAdd(old(evictionCount), if gone.Some? then |Inside(old(ipCounts), gone.value)| else 0)
    {
      gone := None;
      if subnet in subnetCounts || |subnetCounts| < config.maxTrackedSubnets {
        return;
      }
      ghost var first := QuietestSubnet(lastSeen, subnetCounts.Keys);
      var oldest :| oldest in subnetCounts && forall other | other in subnetCounts :: NoLater(lastSeen, oldest, other);
      EvictIps(Inside(ipCounts, oldest).Keys);
      subnetCounts := subnetCounts - {oldest};
      subnetOffenders := subnetOffenders - {oldest};
      gone := Some(oldest);
    }

    method EvictIps(ips: set<IpAddr>)
      modifies this`ipCounts, this`lastSeen, this`evictionCount
      ensures ipCounts == old(ipCounts) - ips && lastSeen == old(lastSeen) - ips
      ensures evictionCount == SatAdd(old(evictionCount), |ips|)
    {
      var todo := ips;
      while todo != {}
        invariant todo <= ips
        invariant ipCounts == old(ipCounts) - (ips - todo) && lastSeen == old(lastSeen) - (ips - todo)
        invariant SatAdd(evictionCount, |todo|) == SatAdd(old(evictionCount), |ips|)
      {
        var ip :| ip in todo;
        ipCounts := ipCounts - {ip};
        lastSeen := lastSeen - {ip};
        evictionCount := SatAdd(evictionCount, 1);
        todo := todo - {ip};
      }
    }

    method RecordSubnetOffender(subnet: IpNet, ip: IpAddr, now: int) returns (ghost gone: Option<(IpNet, IpAddr)>)
      modifies this`subnetOffenders, this`evictionCount
      ensures CrossingChoice(config, old(subnetOffenders), subnet, ip, gone)
      ensures subnetOffenders == Crossed(config, WithoutCrossing(old(subnetOffenders), gone), subnet, ip, now)
      ensures evictionCount == SatAdd(old(evictionCount), if gone.Some? then 1 else 0)
    {
      hide OffenderPairs, After;
      gone := None;
      if !HasOffenderRoom(config, subnetOffenders, subnet, ip) {
        gone := EvictOldestCrossing();
      }
      var offenders := OffendersOf(subnetOffenders, subnet);
      offenders := After(offenders, now - config.promotionWindow);
      subnetOffenders := subnetOffenders[subnet := offenders[ip := now]];
    }

    method EvictOldestCrossing() returns (ghost gone: Option<(IpNet, IpAddr)>)
      requires OffenderPairs(subnetOffenders) != {}
      modifies this`subnetOffenders, this`evictionCount
      ensures gone.Some? && gone.value in OffenderPairs(old(subnetOffenders))
      ensures forall p | p in OffenderPairs(old(subnetOffenders)) ::
                old(subnetOffenders)[gone.value.0][gone.value.1] <= old(subnetOffenders)[p.0][p.1]
      ensures subnetOffenders == WithoutCrossing(old(subnetOffenders), gone)
      ensures evictionCount == SatAdd(old(evictionCount), 1)
    {
      ghost var first := OldestCrossing(subnetOffenders);
      var oldest :| oldest in OffenderPairs(subnetOffenders)
                    && forall p | p in OffenderPairs(subnetOffenders) ::
                         subnetOffenders[oldest.0][oldest.1] <= subnetOffenders[p.0][p.1];
      gone := Some(oldest);
      var (network, address) := oldest;
      var rest := subnetOffenders[network] - {address};
      if rest == map[] {
        subnetOffenders := subnetOffenders - {network};
      } else {
        subnetOffenders := subnetOffenders[network := rest];
      }
      evictionCount := SatAdd(evictionCount, 1);
    }

    // ---------- Banning ----------

    /** Place a timed ban and remember it; nothing happens when it is refused. */
    method AddTimed(target: BanTarget, source: string, reason: string, hits: u64, now: int,
                    rule: Option<string>, backend: BanBackend)
      returns (error: Option<BackendError>, ghost gone: set<IpNet>)
      modifies this`activeBans, this`reputation, this`evictionCount, backend
      ensures error.Some? ==>
        && error.value == (if HasRoom(config, old(BansView()), target) then Refused else CapacityReached)
        && View() == old(View()) && backend.entries == old(backend.entries) && gone == {}
      ensures error.None? ==>
        var ban := TimedBan(config, old(BansView()), target, source, reason, hits, now, rule);
        && HasRoom(config, old(BansView()), target)
        && activeBans == old(activeBans)[target := ban]
        && TrimChoice(config.maxReputationEntries, old(reputation)[ban.network := EntryFor(config, ban)], gone)
        && reputation == old(reputation)[ban.network := EntryFor(config, ban)] - gone
        && backend.entries == old(backend.entries) + {target}
      ensures evictionCount == SatAdd(old(evictionCount), |gone|)
    {
      hide TrimChoice;
      gone := {};
      if target !in activeBans && |activeBans| >= config.maxActiveBans {
        return Some(CapacityReached), {};
      }
      var ok := backend.Add(target);
      if !ok {
        return Some(Refused), {};
      }
      var network := NetworkOf(target);
      var offense := OffenseCount(BansView(), network);
      var seconds := BanSeconds(config, offense);
      activeBans := activeBans[target :=
        ActiveBan(network, source, reason, now, now + seconds, hits, offense, rule)];
      reputation := reputation[network :=
        ReputationEntry(network, offense, now, now + config.reputationRetention)];
      gone := TrimReputation();
      error := None;
    }

    /** Drop the single-address bans inside a banned subnet from the logical state even where
        the backend refuses to drop its entry. */
    method RemoveCoveredIpBans(subnet: IpNet, backend: BanBackend)
      returns (removed: set<IpAddr>, errors: set<IpAddr>)
      modifies this`bannedIps, this`activeBans, backend
      ensures removed == CoveredIps(old(bannedIps), Subnet(subnet)) && errors <= removed
      ensures bannedIps == old(bannedIps) - removed
      ensures activeBans == old(activeBans) - IpTargets(removed)
      ensures backend.entries == old(backend.entries) - IpTargets(removed - errors)
    {
      removed := set ip | ip in bannedIps && Contains(subnet, ip);
      errors := {};
      var todo := removed;
      while todo != {}
        invariant todo <= removed && errors <= removed - todo
        invariant bannedIps == old(bannedIps) - (removed - todo)
        invariant activeBans == old(activeBans) - IpTargets(removed - todo)
        invariant backend.entries == old(backend.entries) - IpTargets(removed - todo - errors)
      {
        var ip :| ip in todo;
        var ok := backend.Remove(Ip(ip));
        if !ok {
          errors := errors + {ip};
        }
        bannedIps := bannedIps - {ip};
        activeBans := activeBans - {Ip(ip)};
        todo := todo - {ip};
      }
    }

    method Promote(subnet: IpNet, rule: string, now: int, backend: BanBackend)
      returns (r: Result<RecordResult, BackendError>, ghost gone: set<IpNet>)
      modifies this`bannedIps, this`bannedSubnets, this`activeBans, this`reputation, this`evictionCount, backend
      ensures PlaceStep(config, old(BansView()), old(backend.entries), Subnet(subnet),
                        PromotionBan(config, ScoresView(), old(BansView()), subnet, now, rule), gone,
                        BansView(), backend.entries,
                        match r case Success(x) => Success(x.cleanupErrors) case Failure(e) => Failure(e))
      ensures r.Success? ==>
                r.value.transitions == [Promoted(subnet, CoveredIps(old(bannedIps), Subnet(subnet)))]
      ensures evictionCount == SatAdd(old(evictionCount), |gone|)
    {
      hide TrimChoice, Placed, CoveredIps, TimedBan, HasRoom;
      var target := Subnet(subnet);
      var error;
      error, gone := AddTimed(target, "automatic", "subnet promotion", CountOf(subnetCounts, subnet), now,
                              Some(rule), backend);
      if error.Some? {
        return Failure(error.value), gone;
      }
      var ban := activeBans[target];
      if ban.expiresAt < now + config.subnetBan {
        activeBans := activeBans[target := ban.(expiresAt := now + config.subnetBan)];
      }
      bannedSubnets := bannedSubnets + {subnet};
      ban := activeBans[target];
      var removed, errors := RemoveCoveredIpBans(subnet, backend);
      PlacedSubnet(config, old(BansView()), BansView(), subnet, ban, gone);
      r := Success(RecordResult([Promoted(subnet, removed)], errors));
    }

    /** The opening of `Record`: an expired score is dropped, and the address gets room. */
    method TrackIp(ip: IpAddr, now: int) returns (ghost ips: set<IpAddr>)
      requires Valid()
      modifies this`ipCounts, this`lastSeen, this`subnetCounts, this`evictionCount
      ensures LruChoice(config, Forgotten(config, old(ScoresView()), ip, now), ip, ips)
      ensures ScoresView() == Seen(WithoutIps(config, Forgotten(config, old(ScoresView()), ip, now), ips), ip, now)
      ensures evictionCount == SatAdd(old(evictionCount), |ips|)
    {
      hide LruChoice, Regroup;
      if ip in lastSeen && lastSeen[ip] + config.scoreRetention <= now {
        ipCounts := ipCounts - {ip};
        lastSeen := lastSeen - {ip};
        RebuildSubnetCounts();
      }
      ghost var current := ScoresView();
      assert current == Forgotten(config, old(ScoresView()), ip, now);
      hide Forgotten;
      var evicted;
      evicted, ips := MakeRoomForIp(ip);
      if evicted {
        RebuildSubnetCounts();
      } else {
        assert ipCounts == current.counts && lastSeen == current.lastSeen;
      }
      assert ScoresView() == WithoutIps(config, current, ips);
      lastSeen := lastSeen[ip := now];
    }

    /** The scoring half of `Record`. */
    method AddScore(ip: IpAddr, weight: u64, now: int)
      returns (previous: u64, current: u64, ghost gone: Evicted)
      requires Valid()
      modifies this`ipCounts, this`lastSeen, this`subnetCounts, this`subnetOffenders, this`evictionCount
      ensures gone.crossing.None? && gone.reputation == {}
      ensures RoomChoice(config, old(ScoresView()), ip, now, gone)
      ensures ScoresView() == Added(config, RoomFor(config, old(ScoresView()), ip, now, gone), ip, weight)
      ensures previous == CountOf(RoomFor(config, old(ScoresView()), ip, now, gone).counts, ip)
      ensures current == CountOf(ipCounts, ip)
      ensures evictionCount == SatAdd(old(evictionCount), Lost(config, old(ScoresView()), ip, now, gone))
    {
      hide LruChoice, SubnetChoice, Regroup, Inside, Forgotten, WithoutIps, WithoutSubnet;
      ghost var ips := TrackIp(ip, now);
      ghost var tracked := ScoresView();
      var net := SubnetFor(config, ip);
      ghost var subnet := MakeRoomForSubnet(net);
      gone := Evicted(ips, subnet, None, {});
      assert ScoresView() == RoomFor(config, old(ScoresView()), ip, now, gone);
      previous := CountOf(ipCounts, ip);
      ipCounts := Bumped(ipCounts, ip, weight);
      current := ipCounts[ip];
      subnetCounts := Bumped(subnetCounts, net, weight);
    }

    /** Account one hit of `rule` by `ip`, and ban the address or promote its subnet when due. */
    method Record(ip: IpAddr, weight: u64, rule: string, now: int, backend: BanBackend)
      returns (r: Result<RecordResult, BackendError>, ghost gone: Evicted)
      requires Valid()
      modifies this, backend
      ensures config == old(config)
      ensures RecordStep(config, old(View()), old(backend.entries), ip, weight, rule, now, gone,
                         View(), backend.entries, r)
    {
      hide RoomChoice, RoomFor, Added, Lost, CrossingChoice, WithoutCrossing, Crossed;
      hide BanStep, CoveredBySubnet, CountMatch, CountBans, Regroup, SubnetFor, ScoresAgree, BansAgree;
      NoBansCounted(rule);
      ruleStats := CountMatch(ruleStats, rule);
      var previous, current;
      previous, current, gone := AddScore(ip, weight, now);
      if CoveredBySubnet(BansView(), ip) {
        r := Success(RecordResult([], {}));
        return;
      }
      ghost var crossing, forgotten := None, {};
      if previous < config.ipFailures && current >= config.ipFailures {
        crossing := RecordSubnetOffender(SubnetFor(config, ip), ip, now);
      }
      r, forgotten := BanIfDue(ip, current, rule, now, backend);
      SameRoom(config, old(ScoresView()), ip, now, gone, crossing, forgotten);
      gone := gone.(crossing := crossing, reputation := forgotten);
      if r.Success? {
        ruleStats := CountBans(ruleStats, rule, |r.value.transitions|);
      }
    }

    method BanIfDue(ip: IpAddr, score: u64, rule: string, now: int, backend: BanBackend)
      returns (r: Result<RecordResult, BackendError>, ghost gone: set<IpNet>)
      requires score == CountOf(ipCounts, ip)
      modifies this`bannedIps, this`bannedSubnets, this`activeBans, this`reputation, this`evictionCount, backend
      ensures BanStep(config, ScoresView(), old(BansView()), old(backend.entries), ip, rule, now, gone,
                      BansView(), backend.entries, r)
      ensures evictionCount == SatAdd(old(evictionCount), |gone|)
    {
      hide PlaceStep, ShouldPromote, PromotionBan, TimedBan, CoveredIps;
      gone := {};
      if ShouldPromote(config, ScoresView(), BansView(), ip) {
        r, gone := Promote(SubnetFor(config, ip), rule, now, backend);
      } else if score >= config.ipFailures && ip !in bannedIps {
        r, gone := BanIp(ip, score, rule, now, backend);
      } else {
        r := Success(RecordResult([], {}));
      }
    }

    method BanIp(ip: IpAddr, hits: u64, rule: string, now: int, backend: BanBackend)
      returns (r: Result<RecordResult, BackendError>, ghost gone: set<IpNet>)
      modifies this`bannedIps, this`activeBans, this`reputation, this`evictionCount, backend
      ensures PlaceStep(config, old(BansView()), old(backend.entries), Ip(ip),
                        TimedBan(config, old(BansView()), Ip(ip), "automatic", "threshold", hits, now, Some(rule)),
                        gone, BansView(), backend.entries,
                        match r case Success(x) => Success(x.cleanupErrors) case Failure(e) => Failure(e))
      ensures r.Success? ==> r.value.transitions == [Banned(Ip(ip))]
      ensures evictionCount == SatAdd(old(evictionCount), |gone|)
    {
      hide TrimChoice;
      var error;
      error, gone := AddTimed(Ip(ip), "automatic", "threshold", hits, now, Some(rule), backend);
      if error.Some? {
        return Failure(error.value), gone;
      }
      bannedIps := bannedIps + {ip};
      r := Success(RecordResult([Banned(Ip(ip))], {}));
    }

    method AddManual(target: BanTarget, duration: int, reason: string, now: int, backend: BanBackend)
      returns (r: Result<ActiveBan, BackendError>, ghost failed: set<IpAddr>, ghost gone: set<IpNet>)
      modifies this, backend
      ensures config == old(config)
      ensures AddManualStep(config, old(View()), old(backend.entries), target, duration, reason, now, failed, gone,
                            View(), backend.entries, r)
    {
      hide TrimChoice, PlaceStep, CoveredBySubnet;
      failed, gone := {}, {};
      if target.Ip? && CoveredBySubnet(BansView(), target.ip) {
        return Failure(AlreadyCovered), failed, gone;
      }
      r, failed, gone := PlaceManual(target, duration, reason, now, backend);
    }

    method PlaceManual(target: BanTarget, duration: int, reason: string, now: int, backend: BanBackend)
      returns (r: Result<ActiveBan, BackendError>, failed: set<IpAddr>, ghost gone: set<IpNet>)
      modifies this`bannedIps, this`bannedSubnets, this`activeBans, this`reputation, this`evictionCount, backend
      ensures PlaceStep(config, old(BansView()), old(backend.entries), target,
                        ManualBan(config, old(BansView()), target, duration, reason, now), gone,
                        BansView(), backend.entries,
                        match r case Success(_) => Success(failed) case Failure(e) => Failure(e))
      ensures r.Success? ==> r.value == ManualBan(config, old(BansView()), target, duration, reason, now)
      ensures evictionCount == SatAdd(old(evictionCount), |gone|)
    {
      hide TrimChoice, Placed, CoveredIps, TimedBan, HasRoom;
      failed := {};
      var error;
      error, gone := AddTimed(target, "manual", reason, 1, now, None, backend);
      if error.Some? {
        return Failure(error.value), failed, gone;
      }
      activeBans := activeBans[target := activeBans[target].(expiresAt := now + duration)];
      match target {
        case Ip(ip) =>
          bannedIps := bannedIps + {ip};
          PlacedIp(config, old(BansView()), BansView(), ip, activeBans[target], gone);
        case Subnet(net) =>
          bannedSubnets := bannedSubnets + {net};
          ghost var ban := activeBans[target];
          var removed;
          removed, failed := RemoveCoveredIpBans(net, backend);
          PlacedSubnet(config, old(BansView()), BansView(), net, ban, gone);
      }
      r := Success(activeBans[target]);
    }

    // ---------- Lifting bans ----------

    /** Lift `wanted` bans one at a time; the first refusal stops the pass. */
    method Lift(wanted: set<BanTarget>, backend: BanBackend) returns (ok: bool, ghost gone: set<BanTarget>)
      modifies this`bannedIps, this`bannedSubnets, this`activeBans, backend
      ensures BansView() == WithoutTargets(old(BansView()), gone)
      ensures backend.entries == old(backend.entries) - gone
      ensures if ok then gone == wanted else gone < wanted
    {
      var todo := wanted;
      gone, ok := {}, true;
      assert BansView() == WithoutTargets(old(BansView()), {});
      while todo != {}
        decreases todo
        invariant gone == wanted - todo && todo <= wanted
        invariant BansView() == WithoutTargets(old(BansView()), gone)
        invariant backend.entries == old(backend.entries) - gone
      {
        var target :| target in todo;
        ok := backend.Remove(target);
        if !ok {
          return;
        }
        activeBans := activeBans - {target};
        match target {
          case Ip(ip) => bannedIps := bannedIps - {ip};
          case Subnet(net) => bannedSubnets := bannedSubnets - {net};
        }
        todo := todo - {target};
        gone := gone + {target};
      }
    }

    method CleanupExpired(now: int, backend: BanBackend)
      returns (r: Result<set<BanTarget>, BackendError>, ghost gone: set<BanTarget>)
      modifies this, backend
      ensures config == old(config)
      ensures CleanupStep(config, old(View()), old(backend.entries), now, gone, View(), backend.entries, r)
    {
      hide WithoutTargets, LiveScores, LiveReputation;
      var expired := Expired(BansView(), now);
      var ok;
      ok, gone := Lift(expired, backend);
      if !ok {
        return Failure(Refused), gone;
      }
      ForgetExpired(now);
      r := Success(expired);
    }

    /** The tables that age by themselves lose what has expired. */
    method ForgetExpired(now: int)
      modifies this`ipCounts, this`lastSeen, this`reputation, this`subnetOffenders, this`subnetCounts
      ensures ScoresView() == LiveScores(config, old(ScoresView()), now)
      ensures reputation == LiveReputation(old(reputation), now)
    {
      hide Regroup, LiveOffenders;
      ipCounts := map ip | ip in ipCounts && ip in lastSeen
                           && lastSeen[ip] + config.scoreRetention > now :: ipCounts[ip];
      lastSeen := map ip | ip in lastSeen && lastSeen[ip] + config.scoreRetention > now :: lastSeen[ip];
      reputation := map net | net in reputation && reputation[net].retainUntil > now :: reputation[net];
      subnetOffenders := LiveOffenders(subnetOffenders, now - config.promotionWindow);
      RebuildSubnetCounts();
    }

    method ApplyExceptions(exceptions: seq<IpNet>, backend: BanBackend)
      returns (r: Result<set<BanTarget>, BackendError>, ghost gone: set<BanTarget>)
      requires Valid()
      modifies this, backend
      ensures config == old(config)
      ensures ApplyExceptionsStep(config, old(View()), old(backend.entries), exceptions, gone,
                                  View(), backend.entries, r)
    {
      hide WithoutTargets, IsException, IsCovered, UnexceptedScores, UnexceptedReputation;
      var ips := set ip | ip in bannedIps && IsException(ip, exceptions);
      var nets := set net | net in bannedSubnets && IsCovered(net, exceptions);
      ExceptedSplit(BansView(), exceptions);
      hide ExceptedTargets, IpTargets, SubnetTargets, Regroup;
      var ok;
      ghost var goneNets;
      ok, gone := Lift(IpTargets(ips), backend);
      if !ok {
        return Failure(Refused), gone;
      }
      ok, goneNets := Lift(SubnetTargets(nets), backend);
      LiftedTwice(old(BansView()), gone, goneNets);
      gone := gone + goneNets;
      if !ok {
        return Failure(Refused), gone;
      }
      ForgetExcepted(exceptions);
      r := Success(IpTargets(ips) + SubnetTargets(nets));
    }

    method ForgetExcepted(exceptions: seq<IpNet>)
      modifies this`ipCounts, this`lastSeen, this`reputation, this`subnetOffenders, this`subnetCounts
      ensures ScoresView() == UnexceptedScores(config, old(ScoresView()), exceptions)
      ensures reputation == UnexceptedReputation(old(reputation), exceptions)
    {
      hide Regroup, UnexceptedOffenders, IsException, IsCovered;
      ipCounts := map ip | ip in ipCounts && !IsException(ip, exceptions) :: ipCounts[ip];
      lastSeen := map ip | ip in lastSeen && !IsException(ip, exceptions) :: lastSeen[ip];
      reputation := map net | net in reputation && !IsCovered(net, exceptions) :: reputation[net];
      subnetOffenders := UnexceptedOffenders(subnetOffenders, exceptions);
      RebuildSubnetCounts();
    }

    /** The targets that remain banned under `exceptions`. */
    method TargetsExcluding(exceptions: seq<IpNet>) returns (targets: set<BanTarget>)
      ensures targets == activeBans.Keys - ExceptedTargets(BansView(), exceptions)
    {
      targets := set t | t in activeBans && !IsExcepted(t, exceptions);
    }

    method ResetCounts(target: BanTarget)
      modifies this`ipCounts, this`lastSeen, this`reputation, this`subnetOffenders, this`subnetCounts
      ensures View() == ResetDone(config, old(View()), target)
    {
      match target
      case Ip(ip) => ResetIp(ip);
      case Subnet(net) => ResetNetwork(net);
    }

    method ResetIp(ip: IpAddr)
      modifies this`ipCounts, this`lastSeen, this`reputation, this`subnetOffenders, this`subnetCounts
      ensures View() == ResetDone(config, old(View()), Ip(ip))
    {
      hide Regroup;
      ipCounts := ipCounts - {ip};
      lastSeen := lastSeen - {ip};
      reputation := reputation - {HostNetwork(ip)};
      subnetOffenders := map net | net in subnetOffenders :: subnetOffenders[net] - {ip};
      RebuildSubnetCounts();
    }

    method ResetNetwork(net: IpNet)
      modifies this`ipCounts, this`lastSeen, this`reputation, this`subnetOffenders, this`subnetCounts
      ensures View() == ResetDone(config, old(View()), Subnet(net))
    {
      hide Regroup, Outside, StartingOutside;
      ipCounts := Outside(ipCounts, net);
      lastSeen := Outside(lastSeen, net);
      reputation := StartingOutside(reputation, net);
      subnetOffenders := StartingOutside(subnetOffenders, net);
      RebuildSubnetCounts();
    }

    // ---------- Saving and restoring ----------

    /** Every table as a list; the order is left open. */
    method PersistentForm() returns (file: PersistentState)
      requires Valid()
      ensures Saves(View(), file)
    {
      hide Lists, BanRecords, ScoreRecords, ReputationRecords, CrossingRecords, RuleRecords;
      var bans := Listed(BanRecords(BansView()));
      var scores := Listed(ScoreRecords(ScoresView()));
      var entries := Listed(ReputationRecords(BansView()));
      var crossings := Listed(CrossingRecords(subnetOffenders));
      var rules := Listed(RuleRecords(ruleStats));
      file := PersistentState(SCHEMA_VERSION, bans, scores, entries, crossings, rules);
    }

    method RestorePersistentState(file: PersistentState, now: int) returns (error: Option<BackendError>)
      requires Valid()
      modifies this
      ensures config == old(config)
      ensures file.schemaVersion != SCHEMA_VERSION ==> error == Some(UnsupportedSchema) && View() == old(View())
      ensures file.schemaVersion == SCHEMA_VERSION ==>
        && error == None
        && View() == Restored(config, old(View()), file, now).(evictions := evictionCount)
        && old(evictionCount) <= evictionCount <= SatAdd(old(evictionCount), 2)
    {
      if file.schemaVersion != SCHEMA_VERSION {
        return Some(UnsupportedSchema);
      }
      assert BansAgree(BansView()) && ipCounts.Keys == lastSeen.Keys;
      hide RestoredBans, RestoredScores, AddRules, BansAgree, ScoresAgree, Agrees;
      RestoreBans(file, now);
      assert View() == old(View()).(bans := BansView(), evictions := evictionCount);
      RestoreTables(file, now);
      RestoreRules(file.ruleStats);
      error := None;
    }

    method RestoreBans(file: PersistentState, now: int)
      requires BansAgree(BansView())
      modifies this`activeBans, this`bannedIps, this`bannedSubnets, this`reputation, this`evictionCount
      ensures BansView() == RestoredBans(config, old(BansView()), file, now)
      ensures old(evictionCount) <= evictionCount <= SatAdd(old(evictionCount), 2)
    {
      AgreeingTargets(BansView());
      hide Absorb, BansAgree, IpsIn, NetsIn, PickSubnet, PickIp, PickReputation;
      RestoreSubnets(file.activeBans, now);
      RestoreIps(file.activeBans, now);
      RestoreReputation(file.reputation, now);
    }

    method RestoreTables(file: PersistentState, now: int)
      requires ipCounts.Keys == lastSeen.Keys
      modifies this`ipCounts, this`lastSeen, this`subnetOffenders, this`subnetCounts
      ensures ScoresView() == RestoredScores(config, old(ScoresView()), file, now)
    {
      hide Absorb, Regroup, AddCrossings, PickCount, PickSeen;
      RestoreScores(file.scores, now);
      RestoreCrossings(file.subnetOffenders, now - config.promotionWindow);
      RebuildSubnetCounts();
    }

    method RestoreSubnets(list: seq<ActiveBan>, now: int)
      requires bannedIps == IpsIn(activeBans.Keys) && bannedSubnets == NetsIn(activeBans.Keys)
      modifies this`activeBans, this`bannedSubnets, this`evictionCount
      ensures activeBans == Absorb(old(activeBans), list, PickSubnet(now), config.maxActiveBans)
      ensures bannedIps == IpsIn(activeBans.Keys) && bannedSubnets == NetsIn(activeBans.Keys)
      ensures old(evictionCount) <= evictionCount <= SatAdd(old(evictionCount), 1)
    {
      hide IpsIn, NetsIn;
      ghost var all := Absorb(activeBans, list, PickSubnet(now), config.maxActiveBans);
      for i := 0 to |list|
        invariant Absorb(activeBans, list[i..], PickSubnet(now), config.maxActiveBans) == all
        invariant bannedIps == IpsIn(activeBans.Keys) && bannedSubnets == NetsIn(activeBans.Keys)
        invariant evictionCount == old(evictionCount)
      {
        var ban := list[i];
        assert list[i..][0] == ban && list[i..][1..] == list[i + 1..];
        if ban.expiresAt > now && !IsHostNetwork(ban.network) {
          if |activeBans| >= config.maxActiveBans {
            evictionCount := SatAdd(evictionCount, 1);
            AbsorbFull(activeBans, list[i..], PickSubnet(now), config.maxActiveBans);
            break;
          }
          OneMoreTarget(activeBans, Subnet(ban.network), ban);
          bannedSubnets := bannedSubnets + {ban.network};
          activeBans := activeBans[Subnet(ban.network) := ban];
        }
      }
    }

    method RestoreIps(list: seq<ActiveBan>, now: int)
      requires bannedIps == IpsIn(activeBans.Keys) && bannedSubnets == NetsIn(activeBans.Keys)
      modifies this`activeBans, this`bannedIps, this`evictionCount
      ensures activeBans == Absorb(old(activeBans), list, PickIp(now, bannedSubnets), config.maxActiveBans)
      ensures bannedIps == IpsIn(activeBans.Keys) && bannedSubnets == NetsIn(activeBans.Keys)
      ensures old(evictionCount) <= evictionCount <= SatAdd(old(evictionCount), 1)
    {
      hide Contains, IpsIn, NetsIn;
      ghost var all := Absorb(activeBans, list, PickIp(now, bannedSubnets), config.maxActiveBans);
      for i := 0 to |list|
        invariant Absorb(activeBans, list[i..], PickIp(now, bannedSubnets), config.maxActiveBans) == all
        invariant bannedIps == IpsIn(activeBans.Keys) && bannedSubnets == NetsIn(activeBans.Keys)
        invariant evictionCount == old(evictionCount)
      {
        var ban := list[i];
        assert list[i..][0] == ban && list[i..][1..] == list[i + 1..];
        if ban.expiresAt > now && IsHostNetwork(ban.network) {
          var ip := ban.network.addr;
          if CoveredBySubnet(BansView(), ip) {
            assert PickIp(now, bannedSubnets)(ban) == None;
            continue;
          }
          assert PickIp(now, bannedSubnets)(ban) == Some((Ip(ip), ban));
          if |activeBans| >= config.maxActiveBans {
            evictionCount := SatAdd(evictionCount, 1);
            AbsorbFull(activeBans, list[i..], PickIp(now, bannedSubnets), config.maxActiveBans);
            break;
          }
          OneMoreTarget(activeBans, Ip(ip), ban);
          bannedIps := bannedIps + {ip};
          activeBans := activeBans[Ip(ip) := ban];
        }
      }
    }

    method RestoreScores(list: seq<ScoreEntry>, now: int)
      requires ipCounts.Keys == lastSeen.Keys
      modifies this`ipCounts, this`lastSeen
      ensures ipCounts == Absorb(old(ipCounts), list, PickCount(config, now), config.maxTrackedIps)
      ensures lastSeen == Absorb(old(lastSeen), list, PickSeen(config, now), config.maxTrackedIps)
    {
      for i := 0 to |list|
        invariant ipCounts.Keys == lastSeen.Keys
        invariant Absorb(ipCounts, list[i..], PickCount(config, now), config.maxTrackedIps)
               == Absorb(old(ipCounts), list, PickCount(config, now), config.maxTrackedIps)
        invariant Absorb(lastSeen, list[i..], PickSeen(config, now), config.maxTrackedIps)
               == Absorb(old(lastSeen), list, PickSeen(config, now), config.maxTrackedIps)
      {
        var entry := list[i];
        assert list[i..][0] == entry && list[i..][1..] == list[i + 1..];
        assert |ipCounts| == |ipCounts.Keys| && |lastSeen| == |lastSeen.Keys|;
        if entry.lastSeen + config.scoreRetention > now && |ipCounts| < config.maxTrackedIps {
          ipCounts := ipCounts[entry.ip := entry.score];
          lastSeen := lastSeen[entry.ip := entry.lastSeen];
        }
      }
    }

    method RestoreReputation(list: seq<ReputationEntry>, now: int)
      modifies this`reputation
      ensures reputation == Absorb(old(reputation), list, PickReputation(now), config.maxReputationEntries)
    {
      for i := 0 to |list|
        invariant Absorb(reputation, list[i..], PickReputation(now), config.maxReputationEntries)
               == Absorb(old(reputation), list, PickReputation(now), config.maxReputationEntries)
      {
        var entry := list[i];
        assert list[i..][0] == entry && list[i..][1..] == list[i + 1..];
        if entry.retainUntil > now && |reputation| < config.maxReputationEntries {
          reputation := reputation[entry.network := entry];
        }
      }
    }

    method RestoreCrossings(list: seq<CrossingEntry>, cutoff: int)
      modifies this`subnetOffenders
      ensures subnetOffenders == AddCrossings(old(subnetOffenders), list, cutoff)
    {
      for i := 0 to |list|
        invariant AddCrossings(subnetOffenders, list[i..], cutoff) == AddCrossings(old(subnetOffenders), list, cutoff)
      {
        var entry := list[i];
        assert list[i..][0] == entry && list[i..][1..] == list[i + 1..];
        if entry.crossedAt > cutoff {
          var offenders := OffendersOf(subnetOffenders, entry.subnet);
          subnetOffenders := subnetOffenders[entry.subnet := offenders[entry.ip := entry.crossedAt]];
        }
      }
    }

    method RestoreRules(list: seq<RuleEntry>)
      modifies this`ruleStats
      ensures ruleStats == AddRules(old(ruleStats), list)
    {
      for i := 0 to |list|
        invariant AddRules(ruleStats, list[i..]) == AddRules(old(ruleStats), list)
      {
        var entry := list[i];
        assert list[i..][0] == entry && list[i..][1..] == list[i + 1..];
        var stats := StatsOf(ruleStats, entry.name);
        ruleStats := ruleStats[entry.name := RuleStats(SatAdd(stats.matchCount, entry.stats.matchCount),
                                                       SatAdd(stats.banCount, entry.stats.banCount))];
      }
    }
  }

  lemma OneMoreTarget(active: map<BanTarget, ActiveBan>, t: BanTarget, ban: ActiveBan)
    ensures IpsIn(active[t := ban].Keys) == IpsIn(active.Keys) + if t.Ip? then {t.ip} else {}
    ensures NetsIn(active[t := ban].Keys) == NetsIn(active.Keys) + if t.Subnet? then {t.net} else {}
  {
    assert active[t := ban].Keys == active.Keys + {t};
  }

  lemma AgreeingTargets(bans: Bans)
    requires BansAgree(bans)
    ensures bans.ips == IpsIn(bans.active.Keys) && bans.nets == NetsIn(bans.active.Keys)
  {
    hide CoveredBySubnet;
    forall ip | ip in bans.ips ensures ip in IpsIn(bans.active.Keys) {
      assert Ip(ip) in bans.active;
    }
    forall net | net in bans.nets ensures net in NetsIn(bans.active.Keys) {
      assert Subnet(net) in bans.active;
    }
  }

  /** What is evicted later leaves the tables that scoring produced as they are. */
  lemma SameRoom(cfg: Config, scores: Scores, ip: IpAddr, now: int, gone: Evicted,
                 crossing: Option<(IpNet, IpAddr)>, forgotten: set<IpNet>)
    requires gone.crossing.None? && gone.reputation == {}
    ensures
      var all := gone.(crossing := crossing, reputation := forgotten);
      && RoomFor(cfg, scores, ip, now, all) == RoomFor(cfg, scores, ip, now, gone)
      && (RoomChoice(cfg, scores, ip, now, all) <==> RoomChoice(cfg, scores, ip, now, gone))
      && Lost(cfg, scores, ip, now, all)
         == Lost(cfg, scores, ip, now, gone) + (if crossing.Some? then 1 else 0) + |forgotten|
  {
    hide Forgotten, WithoutIps, Seen, WithoutSubnet, LruChoice, SubnetChoice, Inside;
  }

  lemma PlacedIp(cfg: Config, before: Bans, after: Bans, ip: IpAddr, ban: ActiveBan, forgotten: set<IpNet>)
    requires after == Bans(before.ips + {ip}, before.nets, before.active[Ip(ip) := ban],
                           before.reputation[ban.network := EntryFor(cfg, ban)] - forgotten)
    ensures after == Placed(cfg, before, Ip(ip), ban, forgotten) && CoveredIps(before.ips, Ip(ip)) == {}
  {
    assert before.active - IpTargets({}) == before.active;
  }

  lemma PlacedSubnet(cfg: Config, before: Bans, after: Bans, net: IpNet, ban: ActiveBan, forgotten: set<IpNet>)
    requires
      var covered := CoveredIps(before.ips, Subnet(net));
      after == Bans(before.ips - covered, before.nets + {net},
                    before.active[Subnet(net) := ban] - IpTargets(covered),
                    before.reputation[ban.network := EntryFor(cfg, ban)] - forgotten)
    ensures after == Placed(cfg, before, Subnet(net), ban, forgotten)
  {
    hide CoveredIps;
  }

  lemma NoBansCounted(rule: string)
    ensures forall rules :: CountBans(rules, rule, 0) == rules
  {
  }

  lemma ExceptedSplit(bans: Bans, exceptions: seq<IpNet>)
    requires BansAgree(bans)
    ensures ExceptedTargets(bans, exceptions)
         == IpTargets(set ip | ip in bans.ips && IsException(ip, exceptions))
          + SubnetTargets(set net | net in bans.nets && IsCovered(net, exceptions))
  {
    hide IsException, IsCovered;
  }

  lemma LiftedTwice(bans: Bans, first: set<BanTarget>, second: set<BanTarget>)
    ensures WithoutTargets(WithoutTargets(bans, first), second) == WithoutTargets(bans, first + second)
  {
    assert bans.active - first - second == bans.active - (first + second);
  }

  lemma RegroupOneMore(cfg: Config, counts: map<IpAddr, u64>, todo: set<IpAddr>, ip: IpAddr)
    requires ip in todo && todo <= counts.Keys
    ensures Regroup(cfg, counts - (todo - {ip}))
         == Bumped(Regroup(cfg, counts - todo), SubnetFor(cfg, ip), counts[ip])
  {
    BumpKeepsTotals(counts - todo, SubnetKey(cfg), ip, counts[ip]);
    assert Bumped(counts - todo, ip, counts[ip]) == counts - (todo - {ip});
  }

  lemma LruDone(cfg: Config, scores: Scores, ip: IpAddr, gone: set<IpAddr>, n: nat)
    requires scores.counts.Keys == scores.lastSeen.Keys && ip !in scores.counts
    requires OldestGone(scores.lastSeen, gone, n)
    requires Size(scores.counts - gone) < cfg.maxTrackedIps
    requires n > 0 ==> Size(scores.counts - gone) >= cfg.maxTrackedIps - 1
    ensures LruChoice(cfg, scores, ip, gone) && |gone| == n
  {
    SizeAfter(scores.counts, gone);
  }

  lemma BannedTimesWithout(reputation: map<IpNet, ReputationEntry>, gone: set<IpNet>)
    ensures BannedTimes(reputation - gone) == BannedTimes(reputation) - gone
    ensures BannedTimes(reputation - gone).Keys == (reputation - gone).Keys
  {
  }

  lemma TrimDone(cap: nat, reputation: map<IpNet, ReputationEntry>, gone: set<IpNet>, n: nat)
    requires OldestGone(BannedTimes(reputation), gone, n)
    requires Size(reputation - gone) <= cap
    requires n > 0 ==> Size(reputation - gone) >= cap
    ensures TrimChoice(cap, reputation, gone) && |gone| == n
  {
    SizeAfter(reputation, gone);
  }

  lemma NoLaterTotal(lastSeen: map<IpAddr, int>, a: IpNet, b: IpNet)
    ensures NoLater(lastSeen, a, b) || NoLater(lastSeen, b, a)
  {
    hide Contains;
  }

  lemma NoLaterTransitive(lastSeen: map<IpAddr, int>, a: IpNet, b: IpNet, c: IpNet)
    requires NoLater(lastSeen, a, b) && NoLater(lastSeen, b, c)
    ensures NoLater(lastSeen, a, c)
  {
    hide Contains;
  }

  /** The order of latest sightings is a total preorder, so some subnet is the quietest. */
  lemma {:induction false} QuietestSubnet(lastSeen: map<IpAddr, int>, subnets: set<IpNet>) returns (quietest: IpNet)
    requires subnets != {}
    ensures quietest in subnets && forall other | other in subnets :: NoLater(lastSeen, quietest, other)
    decreases |subnets|
  {
    hide NoLater;
    quietest :| quietest in subnets;
    NoLaterTotal(lastSeen, quietest, quietest);
    if subnets != {quietest} {
      var other := QuietestSubnet(lastSeen, subnets - {quietest});
      NoLaterTotal(lastSeen, quietest, other);
      var first := quietest;
      quietest := if NoLater(lastSeen, first, other) then first else other;
      forall net | net in subnets ensures NoLater(lastSeen, quietest, net) {
        if net != first && quietest == first {
          assert net in subnets - {first};
          NoLaterTransitive(lastSeen, first, other, net);
        }
      }
    }
  }

  lemma OldestCrossing(offenders: Offenders) returns (oldest: (IpNet, IpAddr))
    requires OffenderPairs(offenders) != {}
    ensures oldest in OffenderPairs(offenders)
    ensures forall p | p in OffenderPairs(offenders) :: offenders[oldest.0][oldest.1] <= offenders[p.0][p.1]
  {
    var times := map p | p in OffenderPairs(offenders) :: offenders[p.0][p.1];
    assert times.Keys == OffenderPairs(offenders);
    oldest := Oldest(times);
    assert forall p | p in OffenderPairs(offenders) :: p in times;
  }
}
