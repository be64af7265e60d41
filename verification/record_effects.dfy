/** What accounting a hit and placing a ban do to every table, entry by entry. */
module RecordEffects {
  import opened Wrappers
  import opened Networks
  import opened Collections
  import opened Counters
  import opened Eviction
  import opened AggregateState
  import opened AggregateSteps
  import opened AggregateInvariants
  import opened TableEffects

  // ---------- Scores ----------

  /** The score an address brings to a hit: none once the retention has passed since it was
      last seen. */
  function ScoreBefore(cfg: Config, scores: Scores, ip: IpAddr, now: int): u64 {
    if ip in scores.counts && ip in scores.lastSeen && scores.lastSeen[ip] + cfg.scoreRetention > now
    then scores.counts[ip] else 0
  }

  /** The scores after making room and adding the weight. */
  ghost function Scored(cfg: Config, s: Scores, ip: IpAddr, weight: u64, now: int, gone: Evicted): Scores {
    Added(cfg, RoomFor(cfg, s, ip, now, gone), ip, weight)
  }

  /** The subnet that makes room for a new one is not the address's own. */
  lemma OwnSubnetStays(cfg: Config, s: Scores, ip: IpAddr, now: int, gone: Evicted)
    requires ScoresAgree(cfg, s) && RoomChoice(cfg, s, ip, now, gone) && gone.subnet.Some?
    ensures gone.subnet.value != SubnetFor(cfg, ip) && !Contains(gone.subnet.value, ip)
  {
    hide TrackedFor, LruChoice, Regroup, Contains, SubnetFor, AgreesBut, NoLater, Forgotten, WithoutIps;
    TrackedAgrees(cfg, s, ip, now, gone);
    IndexedNetworks(cfg, TrackedFor(cfg, s, ip, now, gone), gone.subnet.value, ip);
  }

  lemma IndexedNetworks(cfg: Config, s: Scores, net: IpNet, ip: IpAddr)
    requires AgreesBut(cfg, s, ip) && net in s.subnets && net != SubnetFor(cfg, ip)
    ensures !Contains(net, ip)
  {
    hide SubnetFor, Contains;
    assert net in Regroup(cfg, s.counts);
    var other :| other in s.counts && SubnetFor(cfg, other) == net;
    SubnetContains(cfg, other, ip);
  }

  /** The addresses that lost their scores to make room, one by one. */
  ghost predicate Displaced(gone: Evicted, a: IpAddr) {
    a in gone.ips || (gone.subnet.Some? && Contains(gone.subnet.value, a))
  }

  /** The hit address has its score from before, if it has not expired, and the weight, and was
      seen now; every other score and time is as it was or has made room. */
  lemma ScoresAfterHit(cfg: Config, s: Scores, ip: IpAddr, weight: u64, now: int, gone: Evicted)
    requires ScoresAgree(cfg, s) && RoomChoice(cfg, s, ip, now, gone)
    ensures
      var s' := Scored(cfg, s, ip, weight, now, gone);
      var total := ScoreBefore(cfg, s, ip, now) + weight;
      && ip in s'.counts && s'.counts[ip] == (if total <= U64_MAX then total else U64_MAX)
      && ip in s'.lastSeen && s'.lastSeen[ip] == now
      && (forall a | a != ip :: a in s'.counts <==> a in s.counts && !Displaced(gone, a))
      && (forall a | a != ip :: a in s'.lastSeen <==> a in s'.counts)
      && (forall a | a in s'.counts && a != ip :: s'.counts[a] == s.counts[a] && s'.lastSeen[a] == s.lastSeen[a])
  {
    if gone.subnet.Some? {
      OwnSubnetStays(cfg, s, ip, now, gone);
    }
    OwnScoreStays(cfg, s, ip, now, gone);
    TrackedTables(cfg, s, ip, now, gone);
    RoomTables(cfg, TrackedFor(cfg, s, ip, now, gone), gone.subnet);
    hide Regroup, Contains, SubnetFor, RoomChoice, TrackedFor, Inside, WithoutSubnet;
    BumpedTable(RoomFor(cfg, s, ip, now, gone).counts, ip, weight);
  }

  lemma RoomTables(cfg: Config, t: Scores, gone: Option<IpNet>)
    ensures
      var room := WithoutSubnet(t, gone);
      && (forall a :: a in room.counts <==> a in t.counts && !(gone.Some? && Contains(gone.value, a)))
      && (forall a :: a in room.lastSeen
                 <==> a in t.lastSeen && !(gone.Some? && a in t.counts && Contains(gone.value, a)))
      && (forall a | a in room.counts :: room.counts[a] == t.counts[a])
      && (forall a | a in room.lastSeen :: room.lastSeen[a] == t.lastSeen[a])
  {
    hide Contains;
    if gone.Some? {
      InsideKeys(t.counts, gone.value);
    }
  }

  lemma BumpedTable(counts: map<IpAddr, u64>, ip: IpAddr, weight: u64)
    ensures
      var after, total := Bumped(counts, ip, weight), (if ip in counts then counts[ip] else 0) + weight;
      && (forall a :: a in after <==> a in counts || a == ip)
      && after[ip] == (if total <= U64_MAX then total else U64_MAX)
      && (forall a | a in after && a != ip :: after[a] == counts[a])
  {
  }

  lemma InsideKeys(counts: map<IpAddr, u64>, net: IpNet)
    ensures forall a :: a in Inside(counts, net).Keys <==> a in counts && Contains(net, a)
  {
  }

  lemma TrackedTables(cfg: Config, s: Scores, ip: IpAddr, now: int, gone: Evicted)
    requires s.counts.Keys == s.lastSeen.Keys && ip !in gone.ips
    ensures
      var t := TrackedFor(cfg, s, ip, now, gone);
      && ip in t.lastSeen && t.lastSeen[ip] == now
      && (ip in t.counts <==> ip in s.counts && s.lastSeen[ip] + cfg.scoreRetention > now)
      && (forall a | a != ip :: a in t.counts <==> a in s.counts && a !in gone.ips)
      && (forall a | a != ip :: a in t.lastSeen <==> a in t.counts)
      && (forall a | a in t.counts :: t.counts[a] == s.counts[a])
      && (forall a | a in t.counts && a != ip :: t.lastSeen[a] == s.lastSeen[a])
      && t.offenders == s.offenders
  {
    hide Regroup;
  }

  /** No address evicted for room is the one that needs it. */
  lemma OwnScoreStays(cfg: Config, s: Scores, ip: IpAddr, now: int, gone: Evicted)
    requires ScoresAgree(cfg, s) && RoomChoice(cfg, s, ip, now, gone)
    ensures ip !in gone.ips
  {
    hide Regroup, SubnetChoice, OldestGone, SubnetFor;
  }

  /** An address evicted for room was seen no later than any address that stays. */
  lemma EvictedWereSeenFirst(cfg: Config, s: Scores, ip: IpAddr, weight: u64, now: int, gone: Evicted, a: IpAddr,
                             b: IpAddr)
    requires ScoresAgree(cfg, s) && RoomChoice(cfg, s, ip, now, gone)
    requires a in gone.ips && b in Scored(cfg, s, ip, weight, now, gone).counts && b != ip
    ensures a in s.counts && s.lastSeen[a] <= s.lastSeen[b]
  {
    hide Regroup, Contains, SubnetFor, NoLater, SubnetChoice;
  }

  /** Nothing is evicted for an address whose score has not expired, nor while there is room. */
  lemma NothingEvictedWithRoom(cfg: Config, s: Scores, ip: IpAddr, now: int, gone: Evicted)
    requires ScoresAgree(cfg, s) && RoomChoice(cfg, s, ip, now, gone)
    requires
      || (ip in s.counts && s.lastSeen[ip] + cfg.scoreRetention > now)
      || (|s.counts| < cfg.maxTrackedIps && |s.subnets| < cfg.maxTrackedSubnets)
    ensures gone.ips == {} && gone.subnet == None
  {
    hide SubnetFor, NoLater;
    if ip in s.counts && s.lastSeen[ip] + cfg.scoreRetention > now {
      assert SubnetKey(cfg)(ip) in Regroup(cfg, s.counts);
    } else {
      FewerScores(cfg, s, ip, now);
    }
  }

  lemma FewerScores(cfg: Config, s: Scores, ip: IpAddr, now: int)
    requires ScoresAgree(cfg, s)
    ensures |Forgotten(cfg, s, ip, now).counts| <= |s.counts|
    ensures |Forgotten(cfg, s, ip, now).subnets| <= |s.subnets|
  {
    FewerKeysFewerGroups(s.counts - {ip}, s.counts, SubnetKey(cfg));
    SubsetSize((s.counts - {ip}).Keys, s.counts.Keys);
    assert |s.counts - {ip}| == |(s.counts - {ip}).Keys| && |s.counts| == |s.counts.Keys|;
    hide GroupTotals;
  }

  /** Where a subnet made room, each other subnet had an address seen no earlier than any of its. */
  lemma QuietestSubnetGoes(cfg: Config, s: Scores, ip: IpAddr, weight: u64, now: int, gone: Evicted,
                           a: IpAddr, net: IpNet)
    requires ScoresAgree(cfg, s) && RoomChoice(cfg, s, ip, now, gone)
    requires gone.subnet.Some? && a in s.counts && a !in gone.ips && a != ip && Contains(gone.subnet.value, a)
    requires net in s.subnets && net != gone.subnet.value
    requires exists b | b in s.counts && b !in gone.ips && b != ip :: Contains(net, b)
    ensures exists b | b in Scored(cfg, s, ip, weight, now, gone).lastSeen && Contains(net, b) ::
              s.lastSeen[a] <= Scored(cfg, s, ip, weight, now, gone).lastSeen[b]
  {
    hide Regroup, Contains, SubnetFor, LruChoice, TrackedFor, ScoresAgree, AgreesBut, SubnetChoice, WithoutSubnet;
    var t, g := TrackedFor(cfg, s, ip, now, gone), gone.subnet.value;
    OwnScoreStays(cfg, s, ip, now, gone);
    SameAddresses(cfg, s);
    TrackedTables(cfg, s, ip, now, gone);
    TrackedAgrees(cfg, s, ip, now, gone);
    StillIndexed(cfg, s, t, net, ip, gone);
    QuietestIsNoLater(cfg, t, SubnetFor(cfg, ip), g, net, a);
    var b :| b in t.lastSeen && Contains(net, b) && t.lastSeen[a] <= t.lastSeen[b];
    ChosenIsIndexed(cfg, t, SubnetFor(cfg, ip), g);
    SubnetsApart(cfg, t, g, net, b, ip);
    RoomTables(cfg, t, gone.subnet);
  }

  lemma SameAddresses(cfg: Config, s: Scores)
    requires ScoresAgree(cfg, s)
    ensures s.counts.Keys == s.lastSeen.Keys
  {
  }

  lemma ChosenIsIndexed(cfg: Config, t: Scores, own: IpNet, g: IpNet)
    requires SubnetChoice(cfg, t, own, Some(g))
    ensures g in t.subnets
  {
  }

  lemma QuietestIsNoLater(cfg: Config, t: Scores, own: IpNet, g: IpNet, net: IpNet, a: IpAddr)
    requires SubnetChoice(cfg, t, own, Some(g)) && net in t.subnets && a in t.lastSeen && Contains(g, a)
    ensures exists b | b in t.lastSeen && Contains(net, b) :: t.lastSeen[a] <= t.lastSeen[b]
  {
    assert NoLater(t.lastSeen, g, net);
  }

  lemma StillIndexed(cfg: Config, s: Scores, t: Scores, net: IpNet, ip: IpAddr, gone: Evicted)
    requires ScoresAgree(cfg, s) && AgreesBut(cfg, t, ip) && net in s.subnets
    requires exists b | b in s.counts && b !in gone.ips && b != ip :: Contains(net, b)
    requires forall a | a != ip :: a in t.counts <==> a in s.counts && a !in gone.ips
    ensures net in t.subnets
  {
    hide SubnetFor, Contains;
    var b :| b in s.counts && b !in gone.ips && b != ip && Contains(net, b);
    var other :| other in s.counts && SubnetFor(cfg, other) == net;
    SubnetContains(cfg, other, b);
    assert SubnetKey(cfg)(b) in Regroup(cfg, t.counts);
  }

  lemma SubnetsApart(cfg: Config, t: Scores, one: IpNet, two: IpNet, b: IpAddr, ip: IpAddr)
    requires AgreesBut(cfg, t, ip) && one in t.subnets && two in t.subnets && one != two && Contains(two, b)
    ensures !Contains(one, b)
  {
    hide SubnetFor, Contains;
    assert one in Regroup(cfg, t.counts) && two in Regroup(cfg, t.counts);
    var x :| x in t.counts && SubnetFor(cfg, x) == one;
    var y :| y in t.counts && SubnetFor(cfg, y) == two;
    SubnetContains(cfg, x, b);
    SubnetContains(cfg, y, b);
  }

  // ---------- A recorded hit ----------

  predicate IsCoveredNow(bans: Bans, ip: IpAddr) {
    exists net | net in bans.nets :: Contains(net, ip)
  }

  /** The hit took the address over its threshold, and no subnet ban covers it. */
  predicate Crosses(cfg: Config, s: AggState, ip: IpAddr, now: int, s': AggState) {
    && !IsCoveredNow(s.bans, ip) && ip in s'.scores.counts
    && ScoreBefore(cfg, s.scores, ip, now) < cfg.ipFailures <= s'.scores.counts[ip]
  }

  lemma RecordedScores(cfg: Config, s: AggState, entries: set<BanTarget>, ip: IpAddr, weight: u64, rule: string,
                       now: int, gone: Evicted, s': AggState, entries': set<BanTarget>,
                       r: Result<RecordResult, BackendError>)
    requires RecordStep(cfg, s, entries, ip, weight, rule, now, gone, s', entries', r)
    ensures RoomChoice(cfg, s.scores, ip, now, gone)
    ensures
      var scored := Scored(cfg, s.scores, ip, weight, now, gone);
      s'.scores == scored.(offenders := s'.scores.offenders)
  {
    hide RoomChoice, RoomFor, Added, BanStep, CoveredBySubnet, SubnetFor, CrossingChoice, Crossed, WithoutCrossing;
    hide Lost, CountMatch, CountBans;
  }

  /** Recording a hit: the address's score, the weight added, and every other score untouched or
      displaced for room. */
  lemma RecordScoresExactly(cfg: Config, s: AggState, entries: set<BanTarget>, ip: IpAddr, weight: u64, rule: string,
                            now: int, gone: Evicted, s': AggState, entries': set<BanTarget>,
                            r: Result<RecordResult, BackendError>)
    requires ScoresAgree(cfg, s.scores)
    requires RecordStep(cfg, s, entries, ip, weight, rule, now, gone, s', entries', r)
    ensures
      var total := ScoreBefore(cfg, s.scores, ip, now) + weight;
      && ip in s'.scores.counts && s'.scores.counts[ip] == (if total <= U64_MAX then total else U64_MAX)
      && ip in s'.scores.lastSeen && s'.scores.lastSeen[ip] == now
    ensures forall a | a != ip :: a in s'.scores.counts <==> a in s.scores.counts && !Displaced(gone, a)
    ensures forall a | a in s'.scores.counts && a != ip ::
              a in s'.scores.lastSeen
              && s'.scores.counts[a] == s.scores.counts[a] && s'.scores.lastSeen[a] == s.scores.lastSeen[a]
  {
    hide RecordStep, RoomChoice, ScoresAgree, Scored, Displaced, ScoreBefore;
    RecordedScores(cfg, s, entries, ip, weight, rule, now, gone, s', entries', r);
    ScoresAfterHit(cfg, s.scores, ip, weight, now, gone);
  }

  /** Each rule's statistics: one more match for the hit's rule, and one more ban for each ban. */
  lemma RecordCountsRule(cfg: Config, s: AggState, entries: set<BanTarget>, ip: IpAddr, weight: u64, rule: string,
                         now: int, gone: Evicted, s': AggState, entries': set<BanTarget>,
                         r: Result<RecordResult, BackendError>)
    requires RecordStep(cfg, s, entries, ip, weight, rule, now, gone, s', entries', r)
    ensures
      var was := if rule in s.rules then s.rules[rule] else RuleStats(0, 0);
      var bans := if r.Success? then |r.value.transitions| else 0;
      && rule in s'.rules
      && s'.rules[rule].matchCount == (if was.matchCount < U64_MAX then was.matchCount + 1 else U64_MAX)
      && s'.rules[rule].banCount == (if was.banCount + bans <= U64_MAX then was.banCount + bans else U64_MAX)
      && forall other | other != rule :: (other in s'.rules <==> other in s.rules)
                                         && (other in s.rules ==> s'.rules[other] == s.rules[other])
  {
    hide RoomChoice, RoomFor, Added, BanStep, CoveredBySubnet, SubnetFor, CrossingChoice, Crossed, WithoutCrossing;
    hide Lost;
  }

  /** The score in the room made is the score from before. */
  lemma RoomScore(cfg: Config, s: Scores, ip: IpAddr, now: int, gone: Evicted)
    requires ScoresAgree(cfg, s) && RoomChoice(cfg, s, ip, now, gone)
    ensures CountOf(RoomFor(cfg, s, ip, now, gone).counts, ip) == ScoreBefore(cfg, s, ip, now)
  {
    if gone.subnet.Some? {
      OwnSubnetStays(cfg, s, ip, now, gone);
    }
    OwnScoreStays(cfg, s, ip, now, gone);
    TrackedTables(cfg, s, ip, now, gone);
    RoomTables(cfg, TrackedFor(cfg, s, ip, now, gone), gone.subnet);
    hide Regroup, Contains, SubnetFor, RoomChoice, TrackedFor, Inside, WithoutSubnet;
  }

  lemma RoomNotes(cfg: Config, s: Scores, ip: IpAddr, now: int, gone: Evicted, n: IpNet, a: IpAddr)
    ensures
      var room := RoomFor(cfg, s, ip, now, gone);
      && (Noted(room.offenders, n, a) <==> Noted(s.offenders, n, a) && gone.subnet != Some(n))
      && (Noted(room.offenders, n, a) ==> room.offenders[n][a] == s.offenders[n][a])
  {
    hide Regroup, Inside;
  }

  lemma CrossedNotes(cfg: Config, offenders: Offenders, gone: Option<(IpNet, IpAddr)>, net: IpNet, ip: IpAddr,
                     now: int, n: IpNet, a: IpAddr)
    ensures
      var after := Crossed(cfg, WithoutCrossing(offenders, gone), net, ip, now);
      && (Noted(after, n, a) <==>
            || (n == net && a == ip)
            || (&& Noted(offenders, n, a) && gone != Some((n, a))
                && (n == net ==> offenders[n][a] > now - cfg.promotionWindow)))
      && (Noted(after, n, a) ==> after[n][a] == if n == net && a == ip then now else offenders[n][a])
  {
    WithoutNotes(offenders, gone, n, a);
    hide WithoutCrossing;
  }

  lemma WithoutNotes(offenders: Offenders, gone: Option<(IpNet, IpAddr)>, n: IpNet, a: IpAddr)
    ensures
      var after := WithoutCrossing(offenders, gone);
      && (Noted(after, n, a) <==> Noted(offenders, n, a) && gone != Some((n, a)))
      && (Noted(after, n, a) ==> after[n][a] == offenders[n][a])
  {
    if gone.Some? && gone.value.0 == n && n in offenders && a in offenders[n] && a != gone.value.1 {
      assert a in offenders[n] - {gone.value.1};
    }
  }

  lemma NotedAfterHit(cfg: Config, s: AggState, entries: set<BanTarget>, ip: IpAddr, weight: u64, rule: string,
                      now: int, gone: Evicted, s': AggState, entries': set<BanTarget>,
                      r: Result<RecordResult, BackendError>)
    requires ScoresAgree(cfg, s.scores)
    requires RecordStep(cfg, s, entries, ip, weight, rule, now, gone, s', entries', r)
    ensures
      var room := RoomFor(cfg, s.scores, ip, now, gone).offenders;
      s'.scores.offenders
      == if Crosses(cfg, s, ip, now, s')
         then Crossed(cfg, WithoutCrossing(room, gone.crossing), SubnetFor(cfg, ip), ip, now) else room
    ensures !Crosses(cfg, s, ip, now, s') ==> gone.crossing == None
    ensures Crosses(cfg, s, ip, now, s') ==>
              CrossingChoice(cfg, RoomFor(cfg, s.scores, ip, now, gone).offenders, SubnetFor(cfg, ip), ip,
                             gone.crossing)
  {
    hide RoomChoice, RoomFor, BanStep, SubnetFor, CrossingChoice, Crossed, WithoutCrossing, Lost, CountMatch, CountBans;
    hide ScoresAgree, Contains, ScoreBefore;
    RecordedScores(cfg, s, entries, ip, weight, rule, now, gone, s', entries', r);
    RoomScore(cfg, s.scores, ip, now, gone);
  }

  /** A crossing displaced for room is noted no later than any other, the table was full, and
      the one that needed room was not in it. */
  lemma OldestCrossingGoes(cfg: Config, s: AggState, entries: set<BanTarget>, ip: IpAddr, weight: u64, rule: string,
                           now: int, gone: Evicted, s': AggState, entries': set<BanTarget>,
                           r: Result<RecordResult, BackendError>, n: IpNet, a: IpAddr)
    requires ScoresAgree(cfg, s.scores)
    requires RecordStep(cfg, s, entries, ip, weight, rule, now, gone, s', entries', r)
    requires gone.crossing.Some? && Noted(s.scores.offenders, n, a) && gone.subnet != Some(n)
    ensures
      var (m, b) := gone.crossing.value;
      && Crosses(cfg, s, ip, now, s')
      && Noted(s.scores.offenders, m, b) && s.scores.offenders[m][b] <= s.scores.offenders[n][a]
      && (gone.subnet == None ==> !Noted(s.scores.offenders, SubnetFor(cfg, ip), ip))
  {
    hide RecordStep, SubnetFor, ScoresAgree, Crosses, RoomFor, CrossingChoice, Crossed, WithoutCrossing, Noted;
    NotedAfterHit(cfg, s, entries, ip, weight, rule, now, gone, s', entries', r);
    RoomNotes(cfg, s.scores, ip, now, gone, n, a);
    ChoiceIsOldest(cfg, RoomFor(cfg, s.scores, ip, now, gone).offenders, SubnetFor(cfg, ip), ip, gone.crossing, n, a);
    RoomNotes(cfg, s.scores, ip, now, gone, gone.crossing.value.0, gone.crossing.value.1);
    RoomNotes(cfg, s.scores, ip, now, gone, SubnetFor(cfg, ip), ip);
  }

  lemma ChoiceIsOldest(cfg: Config, offenders: Offenders, net: IpNet, ip: IpAddr, gone: Option<(IpNet, IpAddr)>,
                       n: IpNet, a: IpAddr)
    requires CrossingChoice(cfg, offenders, net, ip, gone) && gone.Some? && Noted(offenders, n, a)
    ensures
      var (m, b) := gone.value;
      Noted(offenders, m, b) && offenders[m][b] <= offenders[n][a] && !Noted(offenders, net, ip)
  {
    assert (n, a) in OffenderPairs(offenders);
  }

  /** The crossings: those there were, without those of an evicted subnet; and when the hit
      crosses the threshold, its own, with the subnet's older than the window gone, and one
      oldest displaced when the table was full. */
  lemma RecordNotesExactly(cfg: Config, s: AggState, entries: set<BanTarget>, ip: IpAddr, weight: u64, rule: string,
                           now: int, gone: Evicted, s': AggState, entries': set<BanTarget>,
                           r: Result<RecordResult, BackendError>, n: IpNet, a: IpAddr)
    requires ScoresAgree(cfg, s.scores)
    requires RecordStep(cfg, s, entries, ip, weight, rule, now, gone, s', entries', r)
    ensures
      var own := Crosses(cfg, s, ip, now, s') && n == SubnetFor(cfg, ip) && a == ip;
      && (Noted(s'.scores.offenders, n, a) <==>
            || own
            || (&& Noted(s.scores.offenders, n, a) && gone.subnet != Some(n) && gone.crossing != Some((n, a))
                && (Crosses(cfg, s, ip, now, s') && n == SubnetFor(cfg, ip) ==>
                      s.scores.offenders[n][a] > now - cfg.promotionWindow)))
      && (Noted(s'.scores.offenders, n, a) ==>
            s'.scores.offenders[n][a] == if own then now else s.scores.offenders[n][a])
  {
    NotedAfterHit(cfg, s, entries, ip, weight, rule, now, gone, s', entries', r);
    hide RecordStep, SubnetFor, ScoresAgree, OffenderPairs;
    var room := RoomFor(cfg, s.scores, ip, now, gone).offenders;
    RoomNotes(cfg, s.scores, ip, now, gone, n, a);
    hide RoomFor;
    if Crosses(cfg, s, ip, now, s') {
      CrossedNotes(cfg, room, gone.crossing, SubnetFor(cfg, ip), ip, now, n, a);
    }
  }

  /** The eviction counter goes up by the number of scores that made room, of crossings and of
      reputations displaced. */
  lemma RecordCountsEvictions(cfg: Config, s: AggState, entries: set<BanTarget>, ip: IpAddr, weight: u64, rule: string,
                              now: int, gone: Evicted, s': AggState, entries': set<BanTarget>,
                              r: Result<RecordResult, BackendError>)
    requires ScoresAgree(cfg, s.scores)
    requires RecordStep(cfg, s, entries, ip, weight, rule, now, gone, s', entries', r)
    ensures
      var lost := set a | a in s.scores.counts && a != ip && a !in s'.scores.counts;
      var total := s.evictions + |lost| + |gone.reputation| + (if gone.crossing.Some? then 1 else 0);
      s'.evictions == if total <= U64_MAX then total else U64_MAX
  {
    hide RoomChoice, ScoresAgree, Displaced, ScoreBefore, Lost, RecordStep;
    RecordScoresExactly(cfg, s, entries, ip, weight, rule, now, gone, s', entries', r);
    RecordedScores(cfg, s, entries, ip, weight, rule, now, gone, s', entries', r);
    LostAreDisplaced(cfg, s.scores, ip, now, gone, set a | a in s.scores.counts && a != ip && a !in s'.scores.counts);
    CountedLost(cfg, s, entries, ip, weight, rule, now, gone, s', entries', r);
  }

  lemma CountedLost(cfg: Config, s: AggState, entries: set<BanTarget>, ip: IpAddr, weight: u64, rule: string,
                    now: int, gone: Evicted, s': AggState, entries': set<BanTarget>,
                    r: Result<RecordResult, BackendError>)
    requires RecordStep(cfg, s, entries, ip, weight, rule, now, gone, s', entries', r)
    ensures s'.evictions == SatAdd(s.evictions, Lost(cfg, s.scores, ip, now, gone))
  {
    hide RoomChoice, RoomFor, Added, BanStep, CoveredBySubnet, SubnetFor, CrossingChoice, Crossed, WithoutCrossing;
    hide CountMatch, CountBans, Lost;
  }

  lemma LostAreDisplaced(cfg: Config, s: Scores, ip: IpAddr, now: int, gone: Evicted, lost: set<IpAddr>)
    requires ScoresAgree(cfg, s) && RoomChoice(cfg, s, ip, now, gone)
    requires forall a :: a in lost <==> a in s.counts && a != ip && Displaced(gone, a)
    ensures Lost(cfg, s, ip, now, gone)
         == |lost| + |gone.reputation| + if gone.crossing.Some? then 1 else 0
  {
    hide Contains, TrackedFor, RoomChoice, ScoresAgree, Inside, SubnetFor;
    OwnScoreStays(cfg, s, ip, now, gone);
    SameAddresses(cfg, s);
    TrackedTables(cfg, s, ip, now, gone);
    EvictedWereTracked(cfg, s, ip, now, gone);
    if gone.subnet.Some? {
      OwnSubnetStays(cfg, s, ip, now, gone);
      var inside := Inside(TrackedFor(cfg, s, ip, now, gone).counts, gone.subnet.value);
      InsideKeys(TrackedFor(cfg, s, ip, now, gone).counts, gone.subnet.value);
      BothSizes(gone.ips, inside, lost);
    } else {
      assert lost == gone.ips;
    }
  }

  lemma BothSizes(ips: set<IpAddr>, table: map<IpAddr, u64>, all: set<IpAddr>)
    requires forall a :: a in all <==> a in ips || a in table
    requires forall a | a in table :: a !in ips
    ensures |all| == |ips| + |table|
  {
    assert all == ips + table.Keys && ips !! table.Keys && |table| == |table.Keys|;
  }

  lemma EvictedWereTracked(cfg: Config, s: Scores, ip: IpAddr, now: int, gone: Evicted)
    requires ScoresAgree(cfg, s) && RoomChoice(cfg, s, ip, now, gone)
    ensures gone.ips <= s.counts.Keys
  {
    hide Regroup, SubnetChoice, SubnetFor, OldestGone;
  }
}
