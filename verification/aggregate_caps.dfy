/** Under one configuration no operation lets a table outgrow its cap. */
module AggregateCaps {
  import opened Wrappers
  import opened Networks
  import opened Collections
  import opened Counters
  import opened Eviction
  import opened AggregateState
  import opened AggregateSteps
  import opened AggregateInvariants

  /** Each cap that held before holds after. */
  ghost predicate KeepsCaps(cfg: Config, s: AggState, s': AggState) {
    && (IpsWithinCap(cfg, s.scores) ==> IpsWithinCap(cfg, s'.scores))
    && (IndexWithinCaps(cfg, s.scores) ==> IndexWithinCaps(cfg, s'.scores))
    && (BansWithinCaps(cfg, s.bans) ==> BansWithinCaps(cfg, s'.bans))
  }

  lemma FewerKeys<K, V, W>(fewer: map<K, V>, more: map<K, W>)
    requires fewer.Keys <= more.Keys
    ensures |fewer| <= |more|
  {
    SubsetSize(fewer.Keys, more.Keys);
    assert |fewer| == |fewer.Keys| && |more| == |more.Keys|;
  }

  // ---------- Scores ----------

  lemma IpsStayWithinCap(cfg: Config, s: Scores, ip: IpAddr, weight: u64, now: int, gone: Evicted)
    requires ScoresAgree(cfg, s) && IpsWithinCap(cfg, s) && RoomChoice(cfg, s, ip, now, gone)
    ensures IpsWithinCap(cfg, Added(cfg, RoomFor(cfg, s, ip, now, gone), ip, weight))
  {
    hide Regroup, SubnetFor, Inside, OldestGone, NoLater, SubnetChoice;
    var unexpired := Forgotten(cfg, s, ip, now);
    ForgottenAgrees(cfg, s, ip, now);
    FewerKeys(unexpired.counts, s.counts);
    var tracked := TrackedFor(cfg, s, ip, now, gone);
    WithoutIpsAgrees(cfg, unexpired, gone.ips);
    SizeAfter(unexpired.counts, gone.ips);
    var room := RoomFor(cfg, s, ip, now, gone);
    FewerKeys(room.counts, tracked.counts);
    BumpedSize(room.counts, ip, weight);
    if ip in unexpired.counts {
      assert room.counts.Keys <= unexpired.counts.Keys;
      FewerKeys(Bumped(room.counts, ip, weight), unexpired.counts);
    }
  }

  lemma BumpedSize<K>(counts: map<K, u64>, k: K, weight: u64)
    ensures |Bumped(counts, k, weight)| <= |counts| + 1
    ensures k in counts ==> |Bumped(counts, k, weight)| == |counts|
  {
    var after := Bumped(counts, k, weight);
    assert after.Keys == counts.Keys + {k};
    assert |after.Keys| == |after| && |counts.Keys| == |counts|;
  }

  lemma FewerScoresFewerSubnets(cfg: Config, fewer: map<IpAddr, u64>, counts: map<IpAddr, u64>)
    requires fewer.Keys <= counts.Keys
    ensures |Regroup(cfg, fewer)| <= |Regroup(cfg, counts)|
  {
    FewerKeysFewerGroups(fewer, counts, SubnetKey(cfg));
  }

  lemma SubnetsStayWithinCap(cfg: Config, s: Scores, ip: IpAddr, weight: u64, now: int, gone: Evicted)
    requires ScoresAgree(cfg, s) && |s.subnets| <= cfg.maxTrackedSubnets && RoomChoice(cfg, s, ip, now, gone)
    ensures |Added(cfg, RoomFor(cfg, s, ip, now, gone), ip, weight).subnets| <= cfg.maxTrackedSubnets
  {
    TrackedAgrees(cfg, s, ip, now, gone);
    var tracked := TrackedFor(cfg, s, ip, now, gone);
    TrackedKeepsSome(cfg, s, ip, now, gone);
    FewerScoresFewerSubnets(cfg, tracked.counts, s.counts);
    hide Regroup, SubnetFor, TrackedFor, LruChoice, SubnetChoice, WithoutSubnet;
    SubnetGetsRoom(cfg, tracked, SubnetFor(cfg, ip), weight, gone.subnet);
  }

  lemma SubnetGetsRoom(cfg: Config, s: Scores, net: IpNet, weight: u64, gone: Option<IpNet>)
    requires |s.subnets| <= cfg.maxTrackedSubnets && SubnetChoice(cfg, s, net, gone)
    ensures |Bumped(WithoutSubnet(s, gone).subnets, net, weight)| <= cfg.maxTrackedSubnets
  {
    hide Inside, NoLater;
    if gone.Some? {
      SizeAfter(s.subnets, {gone.value});
    }
    BumpedSize(WithoutSubnet(s, gone).subnets, net, weight);
  }

  lemma TrackedKeepsSome(cfg: Config, s: Scores, ip: IpAddr, now: int, gone: Evicted)
    ensures TrackedFor(cfg, s, ip, now, gone).counts.Keys <= s.counts.Keys
    ensures TrackedFor(cfg, s, ip, now, gone).offenders == s.offenders
  {
    hide Regroup;
  }

  // ---------- Crossings ----------

  lemma FewerPairs(fewer: Offenders, more: Offenders)
    requires forall net | net in fewer :: net in more && fewer[net].Keys <= more[net].Keys
    ensures |OffenderPairs(fewer)| <= |OffenderPairs(more)|
  {
    SubsetSize(OffenderPairs(fewer), OffenderPairs(more));
  }

  lemma CrossedPairs(cfg: Config, offenders: Offenders, net: IpNet, ip: IpAddr, now: int)
    ensures OffenderPairs(Crossed(cfg, offenders, net, ip, now)) <= OffenderPairs(offenders) + {(net, ip)}
  {
  }

  lemma WithoutCrossingPairs(offenders: Offenders, gone: (IpNet, IpAddr))
    requires gone in OffenderPairs(offenders)
    ensures OffenderPairs(WithoutCrossing(offenders, Some(gone))) == OffenderPairs(offenders) - {gone}
  {
    var after := WithoutCrossing(offenders, Some(gone));
    forall p | p in OffenderPairs(offenders) - {gone} ensures p in OffenderPairs(after) {
      if p.0 == gone.0 {
        assert p.1 in offenders[gone.0] - {gone.1};
      }
    }
  }

  lemma CrossingsStayWithinCap(cfg: Config, offenders: Offenders, net: IpNet, ip: IpAddr, now: int,
                               gone: Option<(IpNet, IpAddr)>)
    requires |OffenderPairs(offenders)| <= cfg.maxTrackedIps && CrossingChoice(cfg, offenders, net, ip, gone)
    ensures |OffenderPairs(Crossed(cfg, WithoutCrossing(offenders, gone), net, ip, now))| <= cfg.maxTrackedIps
  {
    var room := WithoutCrossing(offenders, gone);
    if gone.Some? {
      WithoutCrossingPairs(offenders, gone.value);
    }
    CrossedPairs(cfg, room, net, ip, now);
    hide OffenderPairs, Crossed, WithoutCrossing;
    SubsetSize(OffenderPairs(Crossed(cfg, room, net, ip, now)), OffenderPairs(room) + {(net, ip)});
    if (net, ip) in OffenderPairs(room) {
      assert OffenderPairs(room) + {(net, ip)} == OffenderPairs(room);
    }
  }

  // ---------- Bans ----------

  lemma PlacedWithinCaps(cfg: Config, bans: Bans, target: BanTarget, ban: ActiveBan, forgotten: set<IpNet>)
    requires BansWithinCaps(cfg, bans) && HasRoom(cfg, bans, target)
    requires TrimChoice(cfg.maxReputationEntries, bans.reputation[ban.network := EntryFor(cfg, ban)], forgotten)
    ensures BansWithinCaps(cfg, Placed(cfg, bans, target, ban, forgotten))
  {
    hide CoveredIps, EntryFor, OldestGone, TrimChoice, IpTargets;
    TrimWithin(bans.reputation[ban.network := EntryFor(cfg, ban)], forgotten, cfg.maxReputationEntries);
    ReplacedWithin(bans.active, IpTargets(CoveredIps(bans.ips, target)), target, ban);
  }

  lemma ReplacedWithin<K, V>(table: map<K, V>, gone: set<K>, k: K, v: V)
    ensures |(table - gone)[k := v]| <= if k in table then |table| else |table| + 1
  {
    var kept := table - gone;
    FewerKeys(kept, table);
    if k in table {
      FewerKeys(kept[k := v], table);
    } else {
      OneMoreKey(kept, k, v);
    }
  }

  lemma TrimWithin(reputation: map<IpNet, ReputationEntry>, forgotten: set<IpNet>, cap: nat)
    requires TrimChoice(cap, reputation, forgotten)
    ensures |reputation - forgotten| <= cap
  {
    SizeAfter(reputation, forgotten);
  }

  lemma PlaceStepWithinCaps(cfg: Config, bans: Bans, entries: set<BanTarget>, target: BanTarget, ban: ActiveBan,
                            forgotten: set<IpNet>, bans': Bans, entries': set<BanTarget>,
                            outcome: Result<set<IpAddr>, BackendError>)
    requires BansWithinCaps(cfg, bans)
    requires PlaceStep(cfg, bans, entries, target, ban, forgotten, bans', entries', outcome)
    ensures BansWithinCaps(cfg, bans')
  {
    if outcome.Success? {
      PlacedWithinCaps(cfg, bans, target, ban, forgotten);
    }
  }

  // ---------- Every operation ----------

  lemma ScoringWithinCaps(cfg: Config, s: Scores, ip: IpAddr, weight: u64, now: int, gone: Evicted)
    requires ScoresAgree(cfg, s) && RoomChoice(cfg, s, ip, now, gone)
    ensures IpsWithinCap(cfg, s) ==> IpsWithinCap(cfg, Added(cfg, RoomFor(cfg, s, ip, now, gone), ip, weight))
    ensures IndexWithinCaps(cfg, s) ==> IndexWithinCaps(cfg, Added(cfg, RoomFor(cfg, s, ip, now, gone), ip, weight))
  {
    if IpsWithinCap(cfg, s) {
      IpsStayWithinCap(cfg, s, ip, weight, now, gone);
    }
    if IndexWithinCaps(cfg, s) {
      SubnetsStayWithinCap(cfg, s, ip, weight, now, gone);
    }
    TrackedKeepsSome(cfg, s, ip, now, gone);
    hide Regroup, SubnetFor, TrackedFor, RoomChoice, OffenderPairs, Inside;
    FewerPairs(RoomFor(cfg, s, ip, now, gone).offenders, s.offenders);
  }

  lemma RecordedScoresWithinCaps(cfg: Config, s: AggState, entries: set<BanTarget>, ip: IpAddr, weight: u64,
                                 rule: string, now: int, gone: Evicted, s': AggState, entries': set<BanTarget>,
                                 r: Result<RecordResult, BackendError>)
    requires ScoresAgree(cfg, s.scores)
    requires RecordStep(cfg, s, entries, ip, weight, rule, now, gone, s', entries', r)
    ensures IpsWithinCap(cfg, s.scores) ==> IpsWithinCap(cfg, s'.scores)
    ensures IndexWithinCaps(cfg, s.scores) ==> IndexWithinCaps(cfg, s'.scores)
  {
    hide Regroup, RoomChoice, RoomFor, Added, SubnetFor, BanStep, CoveredBySubnet, ScoresAgree, CountMatch, CountBans,
         Lost;
    hide CrossingChoice, OffenderPairs, Crossed, WithoutCrossing;
    ScoringWithinCaps(cfg, s.scores, ip, weight, now, gone);
    var added := Added(cfg, RoomFor(cfg, s.scores, ip, now, gone), ip, weight);
    if s'.scores != added && IndexWithinCaps(cfg, s.scores) {
      CrossingsStayWithinCap(cfg, added.offenders, SubnetFor(cfg, ip), ip, now, gone.crossing);
    }
  }

  lemma RecordWithinCaps(cfg: Config, s: AggState, entries: set<BanTarget>, ip: IpAddr, weight: u64, rule: string,
                         now: int, gone: Evicted, s': AggState, entries': set<BanTarget>,
                         r: Result<RecordResult, BackendError>)
    requires Agrees(cfg, s)
    requires RecordStep(cfg, s, entries, ip, weight, rule, now, gone, s', entries', r)
    ensures KeepsCaps(cfg, s, s')
  {
    RecordedScoresWithinCaps(cfg, s, entries, ip, weight, rule, now, gone, s', entries', r);
    var attempt := RecordAttempts(cfg, s, entries, ip, weight, rule, now, gone, s', entries', r);
    hide RecordStep, AttemptOf, PlaceStep, BansWithinCaps, IndexWithinCaps, Regroup;
    if attempt.Some? && BansWithinCaps(cfg, s.bans) {
      PlaceStepWithinCaps(cfg, s.bans, entries, attempt.value.target, attempt.value.ban, gone.reputation,
                          s'.bans, entries', FailedRemovals(r));
    }
  }

  lemma AddManualWithinCaps(cfg: Config, s: AggState, entries: set<BanTarget>, target: BanTarget, duration: int,
                            reason: string, now: int, failed: set<IpAddr>, forgotten: set<IpNet>,
                            s': AggState, entries': set<BanTarget>, r: Result<ActiveBan, BackendError>)
    requires AddManualStep(cfg, s, entries, target, duration, reason, now, failed, forgotten, s', entries', r)
    ensures KeepsCaps(cfg, s, s')
  {
    hide PlaceStep, BansWithinCaps, CoveredBySubnet;
    if !(target.Ip? && CoveredBySubnet(s.bans, target.ip)) && BansWithinCaps(cfg, s.bans) {
      PlaceStepWithinCaps(cfg, s.bans, entries, target, ManualBan(cfg, s.bans, target, duration, reason, now),
        forgotten, s'.bans, entries', match r case Success(_) => Success(failed) case Failure(e) => Failure(e));
    }
  }

  /** An operation that only removes entries keeps every cap. */
  lemma ShrunkWithinCaps(cfg: Config, s: AggState, s': AggState)
    requires ScoresAgree(cfg, s.scores)
    requires s'.scores == s.scores || s'.scores.subnets == Regroup(cfg, s'.scores.counts)
    requires s'.scores.counts.Keys <= s.scores.counts.Keys
    requires forall net | net in s'.scores.offenders ::
               net in s.scores.offenders && s'.scores.offenders[net].Keys <= s.scores.offenders[net].Keys
    requires s'.bans.active.Keys <= s.bans.active.Keys
    requires s'.bans.reputation.Keys <= s.bans.reputation.Keys
    ensures KeepsCaps(cfg, s, s')
  {
    FewerKeys(s'.scores.counts, s.scores.counts);
    FewerKeys(s'.bans.active, s.bans.active);
    FewerKeys(s'.bans.reputation, s.bans.reputation);
    FewerPairs(s'.scores.offenders, s.scores.offenders);
    FewerScoresFewerSubnets(cfg, s'.scores.counts, s.scores.counts);
    hide Regroup, OffenderPairs;
  }

  lemma CleanupWithinCaps(cfg: Config, s: AggState, entries: set<BanTarget>, now: int, gone: set<BanTarget>,
                          s': AggState, entries': set<BanTarget>, r: Result<set<BanTarget>, BackendError>)
    requires Agrees(cfg, s) && CleanupStep(cfg, s, entries, now, gone, s', entries', r)
    ensures KeepsCaps(cfg, s, s')
  {
    hide Regroup, OffenderPairs, KeepsCaps;
    ShrunkWithinCaps(cfg, s, s');
  }

  lemma ApplyExceptionsWithinCaps(cfg: Config, s: AggState, entries: set<BanTarget>, exceptions: seq<IpNet>,
                                  gone: set<BanTarget>, s': AggState, entries': set<BanTarget>,
                                  r: Result<set<BanTarget>, BackendError>)
    requires Agrees(cfg, s)
    requires ApplyExceptionsStep(cfg, s, entries, exceptions, gone, s', entries', r)
    ensures KeepsCaps(cfg, s, s')
  {
    hide Regroup, OffenderPairs, KeepsCaps, IsException, IsCovered;
    ShrunkWithinCaps(cfg, s, s');
  }

  lemma ResetWithinCaps(cfg: Config, s: AggState, target: BanTarget)
    requires Agrees(cfg, s)
    ensures KeepsCaps(cfg, s, ResetDone(cfg, s, target))
  {
    hide Regroup, OffenderPairs, KeepsCaps, Contains;
    ShrunkWithinCaps(cfg, s, ResetDone(cfg, s, target));
  }
}
