/** What each aggregator operation may do to the state, as relations between values.  Where
    the program iterates over hash maps the order is left open, and a backend call may fail. */
module AggregateSteps {
  import opened Wrappers
  import opened Networks
  import opened Collections
  import opened Counters
  import opened Eviction
  import opened AggregateState

  // ---------- Scores ----------

  predicate Stale(cfg: Config, scores: Scores, ip: IpAddr, now: int) {
    ip in scores.lastSeen && scores.lastSeen[ip] + cfg.scoreRetention <= now
  }

  ghost function Forgotten(cfg: Config, scores: Scores, ip: IpAddr, now: int): Scores {
    if !Stale(cfg, scores, ip, now) then scores else
      scores.(counts := scores.counts - {ip}, lastSeen := scores.lastSeen - {ip},
              subnets := Regroup(cfg, scores.counts - {ip}))
  }

  /** The addresses evicted to make room for a new one: none when it is tracked or there is
      room, otherwise just enough, and nothing evicted was seen after anything kept. */
  ghost predicate LruChoice(cfg: Config, scores: Scores, ip: IpAddr, gone: set<IpAddr>) {
    && gone <= scores.counts.Keys
    && (if ip in scores.counts || |scores.counts| < cfg.maxTrackedIps then gone == {}
        else |scores.counts| - |gone| == cfg.maxTrackedIps - 1)
    && OldestGone(scores.lastSeen, gone, |gone|)
  }

  ghost function WithoutIps(cfg: Config, scores: Scores, gone: set<IpAddr>): Scores {
    if gone == {} then scores else
      scores.(counts := scores.counts - gone, lastSeen := scores.lastSeen - gone,
              subnets := Regroup(cfg, scores.counts - gone))
  }

  function Seen(scores: Scores, ip: IpAddr, now: int): Scores {
    scores.(lastSeen := scores.lastSeen[ip := now])
  }

  /** The latest sighting in `a` is no later than the latest in `b`. */
  predicate NoLater(lastSeen: map<IpAddr, int>, a: IpNet, b: IpNet) {
    forall ip | ip in lastSeen && Contains(a, ip) ::
      exists other | other in lastSeen && Contains(b, other) :: lastSeen[ip] <= lastSeen[other]
  }

  /** The subnet evicted to make room for a new one, if any: one whose latest sighting is no
      later than any other subnet's. */
  ghost predicate SubnetChoice(cfg: Config, scores: Scores, net: IpNet, gone: Option<IpNet>) {
    match gone
    case None => net in scores.subnets || |scores.subnets| < cfg.maxTrackedSubnets
    case Some(oldest) =>
      && net !in scores.subnets && |scores.subnets| >= cfg.maxTrackedSubnets
      && oldest in scores.subnets
      && forall other | other in scores.subnets :: NoLater(scores.lastSeen, oldest, other)
  }

  function WithoutSubnet(scores: Scores, gone: Option<IpNet>): Scores {
    match gone
    case None => scores
    case Some(net) =>
      var ips := Inside(scores.counts, net).Keys;
      Scores(scores.counts - ips, scores.lastSeen - ips, scores.subnets - {net}, scores.offenders - {net})
  }

  function Added(cfg: Config, scores: Scores, ip: IpAddr, weight: u64): Scores {
    scores.(counts := Bumped(scores.counts, ip, weight),
            subnets := Bumped(scores.subnets, SubnetFor(cfg, ip), weight))
  }

  predicate HasOffenderRoom(cfg: Config, offenders: Offenders, net: IpNet, ip: IpAddr) {
    (net, ip) in OffenderPairs(offenders) || |OffenderPairs(offenders)| < cfg.maxTrackedIps
  }

  /** The crossing evicted to make room for a new one, if any: an oldest one. */
  ghost predicate CrossingChoice(cfg: Config, offenders: Offenders, net: IpNet, ip: IpAddr,
                                 gone: Option<(IpNet, IpAddr)>) {
    match gone
    case None => HasOffenderRoom(cfg, offenders, net, ip)
    case Some(oldest) =>
      && !HasOffenderRoom(cfg, offenders, net, ip)
      && oldest in OffenderPairs(offenders)
      && forall p | p in OffenderPairs(offenders) ::
           offenders[oldest.0][oldest.1] <= offenders[p.0][p.1]
  }

  function WithoutCrossing(offenders: Offenders, gone: Option<(IpNet, IpAddr)>): Offenders {
    match gone
    case None => offenders
    case Some((net, ip)) =>
      var rest := OffendersOf(offenders, net) - {ip};
      if rest == map[] then offenders - {net} else offenders[net := rest]
  }

  function After(crossings: map<IpAddr, int>, cutoff: int): map<IpAddr, int> {
    map ip | ip in crossings && crossings[ip] > cutoff :: crossings[ip]
  }

  function OffendersOf(offenders: Offenders, net: IpNet): map<IpAddr, int> {
    if net in offenders then offenders[net] else map[]
  }

  function Crossed(cfg: Config, offenders: Offenders, net: IpNet, ip: IpAddr, now: int): Offenders {
    offenders[net := After(OffendersOf(offenders, net), now - cfg.promotionWindow)[ip := now]]
  }

  // ---------- Bans ----------

  function OffenseCount(bans: Bans, net: IpNet): u32 {
    if net !in bans.reputation then 1
    else if bans.reputation[net].offenseCount < U32_MAX then bans.reputation[net].offenseCount + 1
    else U32_MAX
  }

  function BanSeconds(cfg: Config, offense: u32): nat {
    if offense == 1 then cfg.firstBan
    else if offense == 2 then cfg.secondBan
    else if offense == 3 then cfg.thirdBan
    else cfg.maxBan
  }

  function TimedBan(cfg: Config, bans: Bans, target: BanTarget, source: string, reason: string,
                    hits: u64, now: int, rule: Option<string>): ActiveBan {
    var net := NetworkOf(target);
    var offense := OffenseCount(bans, net);
    ActiveBan(net, source, reason, now, now + BanSeconds(cfg, offense), hits, offense, rule)
  }

  function ThresholdBan(cfg: Config, scores: Scores, bans: Bans, ip: IpAddr, now: int, rule: string): ActiveBan {
    TimedBan(cfg, bans, Ip(ip), "automatic", "threshold", CountOf(scores.counts, ip), now, Some(rule))
  }

  function PromotionBan(cfg: Config, scores: Scores, bans: Bans, net: IpNet, now: int, rule: string): ActiveBan {
    var ban := TimedBan(cfg, bans, Subnet(net), "automatic", "subnet promotion",
                        CountOf(scores.subnets, net), now, Some(rule));
    ban.(expiresAt := if ban.expiresAt < now + cfg.subnetBan then now + cfg.subnetBan else ban.expiresAt)
  }

  function ManualBan(cfg: Config, bans: Bans, target: BanTarget, duration: int, reason: string, now: int): ActiveBan {
    TimedBan(cfg, bans, target, "manual", reason, 1, now, None).(expiresAt := now + duration)
  }

  function EntryFor(cfg: Config, ban: ActiveBan): ReputationEntry {
    ReputationEntry(ban.network, ban.offenseCount, ban.createdAt, ban.createdAt + cfg.reputationRetention)
  }

  /** The reputations dropped to keep the table within its cap: just enough, and nothing
      dropped was banned after anything kept. */
  ghost predicate TrimChoice(cap: nat, reputation: map<IpNet, ReputationEntry>, gone: set<IpNet>) {
    && |reputation| - |gone| == (if |reputation| <= cap then |reputation| else cap)
    && OldestGone(BannedTimes(reputation), gone, |gone|)
  }

  function BannedTimes(reputation: map<IpNet, ReputationEntry>): map<IpNet, int> {
    map net | net in reputation :: reputation[net].lastBannedAt
  }

  /** The banned addresses that a ban of `target` makes redundant. */
  function CoveredIps(ips: set<IpAddr>, target: BanTarget): set<IpAddr> {
    if target.Ip? then {} else set ip | ip in ips && Contains(target.net, ip)
  }

  /** A new ban: it replaces the target's record, takes over the single addresses it covers,
      and enters the reputation table. */
  function Placed(cfg: Config, bans: Bans, target: BanTarget, ban: ActiveBan, forgotten: set<IpNet>): Bans {
    var covered := CoveredIps(bans.ips, target);
    Bans(
      if target.Ip? then bans.ips + {target.ip} else bans.ips - covered,
      if target.Ip? then bans.nets else bans.nets + {target.net},
      (bans.active - IpTargets(covered))[target := ban],
      bans.reputation[ban.network := EntryFor(cfg, ban)] - forgotten)
  }

  predicate HasRoom(cfg: Config, bans: Bans, target: BanTarget) {
    target in bans.active || |bans.active| < cfg.maxActiveBans
  }

  /** One attempt to ban: refused for capacity, refused by the backend with no effect, or
      placed.  `failed` are the covered addresses whose backend removal failed. */
  ghost predicate PlaceStep(cfg: Config, before: Bans, entries: set<BanTarget>, target: BanTarget, ban: ActiveBan,
                            forgotten: set<IpNet>,
                            after: Bans, entries': set<BanTarget>, outcome: Result<set<IpAddr>, BackendError>) {
    match outcome
    case Failure(error) =>
      && after == before && entries' == entries && forgotten == {}
      && error == (if HasRoom(cfg, before, target) then Refused else CapacityReached)
    case Success(failed) =>
      && HasRoom(cfg, before, target)
      && TrimChoice(cfg.maxReputationEntries, before.reputation[ban.network := EntryFor(cfg, ban)], forgotten)
      && after == Placed(cfg, before, target, ban, forgotten)
      && failed <= CoveredIps(before.ips, target)
      && entries' == (entries + {target}) - IpTargets(CoveredIps(before.ips, target) - failed)
  }

  function WithoutTargets(bans: Bans, gone: set<BanTarget>): Bans {
    bans.(ips := (set ip | ip in bans.ips && Ip(ip) !in gone),
          nets := (set net | net in bans.nets && Subnet(net) !in gone),
          active := bans.active - gone)
  }

  /** Removal of `wanted` bans one by one stopped part way by a refusing backend. */
  ghost predicate PartRemoved(before: Bans, entries: set<BanTarget>, wanted: set<BanTarget>, gone: set<BanTarget>,
                              after: Bans, entries': set<BanTarget>) {
    && gone < wanted
    && after == WithoutTargets(before, gone)
    && entries' == entries - gone
  }

  // ---------- Operations ----------

  function StatsOf(rules: map<string, RuleStats>, rule: string): RuleStats {
    if rule in rules then rules[rule] else RuleStats(0, 0)
  }

  function CountMatch(rules: map<string, RuleStats>, rule: string): map<string, RuleStats> {
    rules[rule := StatsOf(rules, rule).(matchCount := SatAdd(StatsOf(rules, rule).matchCount, 1))]
  }

  function CountBans(rules: map<string, RuleStats>, rule: string, bans: nat): map<string, RuleStats> {
    if bans == 0 then rules else
      rules[rule := StatsOf(rules, rule).(banCount := SatAdd(StatsOf(rules, rule).banCount, bans))]
  }

  /** What one operation chose where the program leaves the order open. */
  datatype Evicted = Evicted(
    ips: set<IpAddr>, subnet: Option<IpNet>, crossing: Option<(IpNet, IpAddr)>, reputation: set<IpNet>)

  ghost function TrackedFor(cfg: Config, scores: Scores, ip: IpAddr, now: int, gone: Evicted): Scores {
    Seen(WithoutIps(cfg, Forgotten(cfg, scores, ip, now), gone.ips), ip, now)
  }

  ghost function RoomFor(cfg: Config, scores: Scores, ip: IpAddr, now: int, gone: Evicted): Scores {
    WithoutSubnet(TrackedFor(cfg, scores, ip, now, gone), gone.subnet)
  }

  ghost predicate RoomChoice(cfg: Config, scores: Scores, ip: IpAddr, now: int, gone: Evicted) {
    && LruChoice(cfg, Forgotten(cfg, scores, ip, now), ip, gone.ips)
    && SubnetChoice(cfg, TrackedFor(cfg, scores, ip, now, gone), SubnetFor(cfg, ip), gone.subnet)
  }

  /** The number of scores, crossings and reputations an operation evicted. */
  ghost function Lost(cfg: Config, scores: Scores, ip: IpAddr, now: int, gone: Evicted): nat {
    |gone.ips| + |gone.reputation|
    + (if gone.crossing.Some? then 1 else 0)
    + match gone.subnet
      case None => 0
      case Some(net) => |Inside(TrackedFor(cfg, scores, ip, now, gone).counts, net)|
  }

  predicate ShouldPromote(cfg: Config, scores: Scores, bans: Bans, ip: IpAddr) {
    var net := SubnetFor(cfg, ip);
    || (CountOf(scores.counts, ip) >= cfg.ipFailures && net in bans.reputation
        && bans.reputation[net].offenseCount >= cfg.repromoteAfterOffenses)
    || |OffendersOf(scores.offenders, net)| >= cfg.promoteAfterBannedIps
    || (CountOf(scores.subnets, net) >= cfg.subnetFailures
        && |Inside(scores.counts, net)| >= cfg.promoteAfterBannedIps)
  }

  ghost predicate BanStep(cfg: Config, scores: Scores, before: Bans, entries: set<BanTarget>,
                          ip: IpAddr, rule: string, now: int, forgotten: set<IpNet>,
                          after: Bans, entries': set<BanTarget>, r: Result<RecordResult, BackendError>) {
    var net := SubnetFor(cfg, ip);
    var outcome := match r case Success(x) => Success(x.cleanupErrors) case Failure(e) => Failure(e);
    if ShouldPromote(cfg, scores, before, ip) then
      && PlaceStep(cfg, before, entries, Subnet(net), PromotionBan(cfg, scores, before, net, now, rule), forgotten,
                   after, entries', outcome)
      && (r.Success? ==> r.value.transitions == [Promoted(net, CoveredIps(before.ips, Subnet(net)))])
    else if CountOf(scores.counts, ip) >= cfg.ipFailures && ip !in before.ips then
      && PlaceStep(cfg, before, entries, Ip(ip), ThresholdBan(cfg, scores, before, ip, now, rule), forgotten,
                   after, entries', outcome)
      && (r.Success? ==> r.value.transitions == [Banned(Ip(ip))])
    else
      after == before && entries' == entries && r == Success(RecordResult([], {})) && forgotten == {}
  }

  ghost predicate RecordStep(cfg: Config, s: AggState, entries: set<BanTarget>,
                             ip: IpAddr, weight: u64, rule: string, now: int, gone: Evicted,
                             s': AggState, entries': set<BanTarget>, r: Result<RecordResult, BackendError>) {
    var room := RoomFor(cfg, s.scores, ip, now, gone);
    var added := Added(cfg, room, ip, weight);
    var net := SubnetFor(cfg, ip);
    var covered := CoveredBySubnet(s.bans, ip);
    && RoomChoice(cfg, s.scores, ip, now, gone)
    && s'.evictions == SatAdd(s.evictions, Lost(cfg, s.scores, ip, now, gone))
    && s'.rules == CountBans(CountMatch(s.rules, rule), rule, if r.Success? then |r.value.transitions| else 0)
    && (if !covered && CountOf(room.counts, ip) < cfg.ipFailures <= CountOf(added.counts, ip) then
          && CrossingChoice(cfg, added.offenders, net, ip, gone.crossing)
          && s'.scores == added.(offenders :=
               Crossed(cfg, WithoutCrossing(added.offenders, gone.crossing), net, ip, now))
        else gone.crossing == None && s'.scores == added)
    && (if covered then
          s'.bans == s.bans && entries' == entries && r == Success(RecordResult([], {})) && gone.reputation == {}
        else
          BanStep(cfg, s'.scores, s.bans, entries, ip, rule, now, gone.reputation, s'.bans, entries', r))
  }

  ghost predicate AddManualStep(cfg: Config, s: AggState, entries: set<BanTarget>,
                                target: BanTarget, duration: int, reason: string, now: int,
                                failed: set<IpAddr>, forgotten: set<IpNet>,
                                s': AggState, entries': set<BanTarget>, r: Result<ActiveBan, BackendError>) {
    && s'.scores == s.scores && s'.rules == s.rules
    && s'.evictions == SatAdd(s.evictions, |forgotten|)
    && if target.Ip? && CoveredBySubnet(s.bans, target.ip) then
         s'.bans == s.bans && entries' == entries && r == Failure(AlreadyCovered) && forgotten == {}
       else
         var ban := ManualBan(cfg, s.bans, target, duration, reason, now);
         && PlaceStep(cfg, s.bans, entries, target, ban, forgotten, s'.bans, entries',
                      match r case Success(_) => Success(failed) case Failure(e) => Failure(e))
         && (r.Success? ==> r.value == ban)
  }

  function Expired(bans: Bans, now: int): set<BanTarget> {
    set t | t in bans.active && bans.active[t].expiresAt <= now
  }

  function LiveOffenders(offenders: Offenders, cutoff: int): Offenders {
    map net | net in offenders && After(offenders[net], cutoff) != map[] :: After(offenders[net], cutoff)
  }

  function LiveReputation(reputation: map<IpNet, ReputationEntry>, now: int): map<IpNet, ReputationEntry> {
    map net | net in reputation && reputation[net].retainUntil > now :: reputation[net]
  }

  ghost function LiveScores(cfg: Config, scores: Scores, now: int): Scores {
    var counts := map ip | ip in scores.counts && ip in scores.lastSeen
                           && scores.lastSeen[ip] + cfg.scoreRetention > now :: scores.counts[ip];
    Scores(counts,
           map ip | ip in scores.lastSeen && scores.lastSeen[ip] + cfg.scoreRetention > now :: scores.lastSeen[ip],
           Regroup(cfg, counts),
           LiveOffenders(scores.offenders, now - cfg.promotionWindow))
  }

  /** What a completed expiry pass leaves. */
  ghost function CleanedUp(cfg: Config, s: AggState, now: int): AggState {
    var bans := WithoutTargets(s.bans, Expired(s.bans, now));
    s.(scores := LiveScores(cfg, s.scores, now),
       bans := bans.(reputation := LiveReputation(s.bans.reputation, now)))
  }

  ghost predicate CleanupStep(cfg: Config, s: AggState, entries: set<BanTarget>, now: int, gone: set<BanTarget>,
                              s': AggState, entries': set<BanTarget>, r: Result<set<BanTarget>, BackendError>) {
    var expired := Expired(s.bans, now);
    match r
    case Success(removed) =>
      removed == expired && s' == CleanedUp(cfg, s, now) && entries' == entries - expired
    case Failure(error) =>
      && error == Refused && s' == s.(bans := s'.bans)
      && PartRemoved(s.bans, entries, expired, gone, s'.bans, entries')
  }

  predicate IsException(ip: IpAddr, exceptions: seq<IpNet>) {
    exists net | net in exceptions :: Contains(net, ip)
  }

  predicate IsCovered(network: IpNet, exceptions: seq<IpNet>) {
    exists net | net in exceptions :: Covers(net, network)
  }

  predicate IsExcepted(target: BanTarget, exceptions: seq<IpNet>) {
    match target
    case Ip(ip) => IsException(ip, exceptions)
    case Subnet(net) => IsCovered(net, exceptions)
  }

  function ExceptedTargets(bans: Bans, exceptions: seq<IpNet>): set<BanTarget> {
    set t | t in bans.active && IsExcepted(t, exceptions)
  }

  function UnexceptedOffenders(offenders: Offenders, exceptions: seq<IpNet>): Offenders {
    var kept := map net | net in offenders && !IsCovered(net, exceptions) ::
      map ip | ip in offenders[net] && !IsException(ip, exceptions) :: offenders[net][ip];
    map net | net in kept && kept[net] != map[] :: kept[net]
  }

  ghost function UnexceptedScores(cfg: Config, scores: Scores, exceptions: seq<IpNet>): Scores {
    var counts := map ip | ip in scores.counts && !IsException(ip, exceptions) :: scores.counts[ip];
    Scores(counts,
           map ip | ip in scores.lastSeen && !IsException(ip, exceptions) :: scores.lastSeen[ip],
           Regroup(cfg, counts),
           UnexceptedOffenders(scores.offenders, exceptions))
  }

  function UnexceptedReputation(reputation: map<IpNet, ReputationEntry>, exceptions: seq<IpNet>)
    : map<IpNet, ReputationEntry>
  {
    map net | net in reputation && !IsCovered(net, exceptions) :: reputation[net]
  }

  /** What a completed exception pass leaves. */
  ghost function Cleared(cfg: Config, s: AggState, exceptions: seq<IpNet>): AggState {
    var bans := WithoutTargets(s.bans, ExceptedTargets(s.bans, exceptions));
    s.(scores := UnexceptedScores(cfg, s.scores, exceptions),
       bans := bans.(reputation := UnexceptedReputation(s.bans.reputation, exceptions)))
  }

  ghost predicate ApplyExceptionsStep(cfg: Config, s: AggState, entries: set<BanTarget>, exceptions: seq<IpNet>,
                                      gone: set<BanTarget>,
                                      s': AggState, entries': set<BanTarget>,
                                      r: Result<set<BanTarget>, BackendError>) {
    var covered := ExceptedTargets(s.bans, exceptions);
    match r
    case Success(removed) =>
      removed == covered && s' == Cleared(cfg, s, exceptions) && entries' == entries - covered
    case Failure(error) =>
      && error == Refused && s' == s.(bans := s'.bans)
      && PartRemoved(s.bans, entries, covered, gone, s'.bans, entries')
  }

  function Outside<V>(table: map<IpAddr, V>, net: IpNet): map<IpAddr, V> {
    map ip | ip in table && !Contains(net, ip) :: table[ip]
  }

  /** The entries of networks whose own address lies outside `net`. */
  function StartingOutside<V>(table: map<IpNet, V>, net: IpNet): map<IpNet, V> {
    map n | n in table && !Contains(net, n.addr) :: table[n]
  }

  /** Forgetting an address or every address of a network; bans stay. */
  ghost function ResetDone(cfg: Config, s: AggState, target: BanTarget): AggState {
    match target
    case Ip(ip) =>
      s.(scores := Scores(
           s.scores.counts - {ip}, s.scores.lastSeen - {ip}, Regroup(cfg, s.scores.counts - {ip}),
           map net | net in s.scores.offenders :: s.scores.offenders[net] - {ip}),
         bans := s.bans.(reputation := s.bans.reputation - {HostNetwork(ip)}))
    case Subnet(net) =>
      var counts := Outside(s.scores.counts, net);
      s.(scores := Scores(counts, Outside(s.scores.lastSeen, net), Regroup(cfg, counts),
                          StartingOutside(s.scores.offenders, net)),
         bans := s.bans.(reputation := StartingOutside(s.bans.reputation, net)))
  }
}
