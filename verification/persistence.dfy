/** The saved form of the aggregator's state, and what restoring it rebuilds.  A save lists
    every table in some order; restoring takes the lists in the order of the file. */
module Persistence {
  import opened Wrappers
  import opened Networks
  import opened Collections
  import opened Counters
  import opened AggregateState
  import opened AggregateSteps

  datatype ScoreEntry = ScoreEntry(ip: IpAddr, score: u64, lastSeen: int)

  datatype CrossingEntry = CrossingEntry(subnet: IpNet, ip: IpAddr, crossedAt: int)

  datatype RuleEntry = RuleEntry(name: string, stats: RuleStats)

  datatype PersistentState = PersistentState(
    schemaVersion: nat, activeBans: seq<ActiveBan>, scores: seq<ScoreEntry>,
    reputation: seq<ReputationEntry>, subnetOffenders: seq<CrossingEntry>, ruleStats: seq<RuleEntry>)

  const SCHEMA_VERSION: nat := 1

  // ---------- Saving ----------

  function BanRecords(bans: Bans): set<ActiveBan> {
    set t | t in bans.active :: bans.active[t]
  }

  function ScoreRecords(scores: Scores): set<ScoreEntry> {
    set ip | ip in scores.counts && ip in scores.lastSeen :: ScoreEntry(ip, scores.counts[ip], scores.lastSeen[ip])
  }

  function ReputationRecords(bans: Bans): set<ReputationEntry> {
    set net | net in bans.reputation :: bans.reputation[net]
  }

  function CrossingRecords(offenders: Offenders): set<CrossingEntry> {
    set p | p in OffenderPairs(offenders) :: CrossingEntry(p.0, p.1, offenders[p.0][p.1])
  }

  function RuleRecords(rules: map<string, RuleStats>): set<RuleEntry> {
    set name | name in rules :: RuleEntry(name, rules[name])
  }

  /** The file lists exactly the records of the state, each once. */
  ghost predicate Saves(s: AggState, file: PersistentState) {
    && file.schemaVersion == SCHEMA_VERSION
    && Lists(file.activeBans, BanRecords(s.bans))
    && Lists(file.scores, ScoreRecords(s.scores))
    && Lists(file.reputation, ReputationRecords(s.bans))
    && Lists(file.subnetOffenders, CrossingRecords(s.scores.offenders))
    && Lists(file.ruleStats, RuleRecords(s.rules))
  }

  // ---------- Restoring ----------

  function Insert<K, V>(table: map<K, V>, entry: Option<(K, V)>, cap: nat): map<K, V> {
    if entry.Some? && |table| < cap then table[entry.value.0 := entry.value.1] else table
  }

  /** The table after inserting, in order, the picked entries of a list while it is below cap. */
  function Absorb<K, V, E>(table: map<K, V>, list: seq<E>, pick: E -> Option<(K, V)>, cap: nat): map<K, V>
    decreases |list|
  {
    if list == [] then table else Absorb(Insert(table, pick(list[0]), cap), list[1..], pick, cap)
  }

  function PickSubnet(now: int): ActiveBan -> Option<(BanTarget, ActiveBan)> {
    (ban: ActiveBan) => if ban.expiresAt > now && !IsHostNetwork(ban.network) then Some((Subnet(ban.network), ban))
      else None
  }

  function PickIp(now: int, nets: set<IpNet>): ActiveBan -> Option<(BanTarget, ActiveBan)> {
    (ban: ActiveBan) =>
      if ban.expiresAt > now && IsHostNetwork(ban.network)
         && !exists net | net in nets :: Contains(net, ban.network.addr)
      then Some((Ip(ban.network.addr), ban)) else None
  }

  predicate FreshScore(cfg: Config, now: int, entry: ScoreEntry) {
    entry.lastSeen + cfg.scoreRetention > now
  }

  function PickCount(cfg: Config, now: int): ScoreEntry -> Option<(IpAddr, u64)> {
    (entry: ScoreEntry) => if FreshScore(cfg, now, entry) then Some((entry.ip, entry.score)) else None
  }

  function PickSeen(cfg: Config, now: int): ScoreEntry -> Option<(IpAddr, int)> {
    (entry: ScoreEntry) => if FreshScore(cfg, now, entry) then Some((entry.ip, entry.lastSeen)) else None
  }

  function PickReputation(now: int): ReputationEntry -> Option<(IpNet, ReputationEntry)> {
    (entry: ReputationEntry) => if entry.retainUntil > now then Some((entry.network, entry)) else None
  }

  function NetsIn(targets: set<BanTarget>): set<IpNet> {
    set t | t in targets && t.Subnet? :: t.net
  }

  function IpsIn(targets: set<BanTarget>): set<IpAddr> {
    set t | t in targets && t.Ip? :: t.ip
  }

  /** Subnets first, so that they win over single addresses inside them. */
  function RestoredActive(cfg: Config, active: map<BanTarget, ActiveBan>, list: seq<ActiveBan>, now: int)
    : map<BanTarget, ActiveBan>
  {
    var subnets := Absorb(active, list, PickSubnet(now), cfg.maxActiveBans);
    Absorb(subnets, list, PickIp(now, NetsIn(subnets.Keys)), cfg.maxActiveBans)
  }

  function RestoredBans(cfg: Config, bans: Bans, file: PersistentState, now: int): Bans {
    var active := RestoredActive(cfg, bans.active, file.activeBans, now);
    Bans(IpsIn(active.Keys), NetsIn(active.Keys), active,
         Absorb(bans.reputation, file.reputation, PickReputation(now), cfg.maxReputationEntries))
  }

  function AddCrossing(offenders: Offenders, entry: CrossingEntry): Offenders {
    offenders[entry.subnet := OffendersOf(offenders, entry.subnet)[entry.ip := entry.crossedAt]]
  }

  function AddCrossings(offenders: Offenders, list: seq<CrossingEntry>, cutoff: int): Offenders
    decreases |list|
  {
    if list == [] then offenders
    else AddCrossings(if list[0].crossedAt > cutoff then AddCrossing(offenders, list[0]) else offenders,
                      list[1..], cutoff)
  }

  function AddRule(rules: map<string, RuleStats>, entry: RuleEntry): map<string, RuleStats> {
    rules[entry.name := RuleStats(SatAdd(StatsOf(rules, entry.name).matchCount, entry.stats.matchCount),
                                  SatAdd(StatsOf(rules, entry.name).banCount, entry.stats.banCount))]
  }

  function AddRules(rules: map<string, RuleStats>, list: seq<RuleEntry>): map<string, RuleStats>
    decreases |list|
  {
    if list == [] then rules else AddRules(AddRule(rules, list[0]), list[1..])
  }

  ghost function RestoredScores(cfg: Config, scores: Scores, file: PersistentState, now: int): Scores {
    var counts := Absorb(scores.counts, file.scores, PickCount(cfg, now), cfg.maxTrackedIps);
    Scores(counts,
           Absorb(scores.lastSeen, file.scores, PickSeen(cfg, now), cfg.maxTrackedIps),
           Regroup(cfg, counts),
           AddCrossings(scores.offenders, file.subnetOffenders, now - cfg.promotionWindow))
  }

  ghost function Restored(cfg: Config, s: AggState, file: PersistentState, now: int): AggState {
    AggState(RestoredScores(cfg, s.scores, file, now), RestoredBans(cfg, s.bans, file, now),
             s.evictions, AddRules(s.rules, file.ruleStats))
  }

  /** A full table takes nothing more. */
  lemma {:induction false} AbsorbFull<K, V, E>(table: map<K, V>, list: seq<E>, pick: E -> Option<(K, V)>, cap: nat)
    requires |table| >= cap
    ensures Absorb(table, list, pick, cap) == table
    decreases |list|
  {
    if list != [] {
      AbsorbFull(table, list[1..], pick, cap);
    }
  }

  // ---------- Restoring what was saved ----------

  ghost predicate Submap<K, V>(part: map<K, V>, whole: map<K, V>) {
    forall k | k in part :: k in whole && part[k] == whole[k]
  }

  ghost predicate PartOf<K, V>(entry: Option<(K, V)>, whole: map<K, V>) {
    entry.Some? ==> entry.value.0 in whole && whole[entry.value.0] == entry.value.1
  }

  ghost predicate PicksFrom<K, V, E>(list: seq<E>, pick: E -> Option<(K, V)>, whole: map<K, V>) {
    forall e | e in list :: PartOf(pick(e), whole)
  }

  /** Some entry picked from the list has this key. */
  ghost predicate Picks<K, V, E>(list: seq<E>, pick: E -> Option<(K, V)>, k: K) {
    exists e | e in list :: pick(e).Some? && pick(e).value.0 == k
  }

  lemma FullSubmap<K, V>(part: map<K, V>, whole: map<K, V>)
    requires Submap(part, whole) && |part| >= |whole|
    ensures part == whole
  {
    SubsetSize(part.Keys, whole.Keys);
    assert |part.Keys| == |part| && |whole.Keys| == |whole|;
    assert part.Keys == whole.Keys;
  }

  lemma InsertsPart<K, V>(table: map<K, V>, entry: Option<(K, V)>, cap: nat, whole: map<K, V>)
    requires Submap(table, whole) && |whole| <= cap && PartOf(entry, whole)
    ensures Submap(Insert(table, entry, cap), whole)
    ensures forall k :: k in Insert(table, entry, cap) <==> k in table || (entry.Some? && entry.value.0 == k)
  {
    if entry.Some? && |table| >= cap {
      FullSubmap(table, whole);
    }
  }

  lemma PicksStep<K, V, E>(list: seq<E>, pick: E -> Option<(K, V)>, whole: map<K, V>)
    requires list != []
    ensures PicksFrom(list, pick, whole) ==> PartOf(pick(list[0]), whole) && PicksFrom(list[1..], pick, whole)
    ensures forall k :: Picks(list, pick, k) <==>
              (pick(list[0]).Some? && pick(list[0]).value.0 == k) || Picks(list[1..], pick, k)
  {
    hide PartOf;
    assert list[0] in list && forall e | e in list[1..] :: e in list;
    assert forall e | e in list :: e == list[0] || e in list[1..];
  }

  /** Inserting parts of a table no larger than the cap loses none of them, in any order. */
  lemma {:induction false} AbsorbsAll<K, V, E>(table: map<K, V>, list: seq<E>, pick: E -> Option<(K, V)>, cap: nat,
                                               whole: map<K, V>)
    requires Submap(table, whole) && |whole| <= cap && PicksFrom(list, pick, whole)
    ensures Submap(Absorb(table, list, pick, cap), whole)
    ensures forall k :: k in Absorb(table, list, pick, cap) <==> k in table || Picks(list, pick, k)
    decreases |list|
  {
    hide Submap, Insert, PartOf;
    if list != [] {
      PicksStep(list, pick, whole);
      hide PicksFrom, Picks;
      InsertsPart(table, pick(list[0]), cap, whole);
      AbsorbsAll(Insert(table, pick(list[0]), cap), list[1..], pick, cap, whole);
    }
  }

  /** Whatever the cap, only picked entries are added, and the cap is kept. */
  lemma {:induction false} AbsorbsOnly<K, V, E>(table: map<K, V>, list: seq<E>, pick: E -> Option<(K, V)>, cap: nat)
    ensures forall k | k in Absorb(table, list, pick, cap) :: k in table || Picks(list, pick, k)
    ensures forall k | k in table :: k in Absorb(table, list, pick, cap)
    ensures |table| <= cap ==> |Absorb(table, list, pick, cap)| <= cap
    decreases |list|
  {
    if list != [] {
      var next := Insert(table, pick(list[0]), cap);
      InsertWithin(table, pick(list[0]), cap);
      PicksStep(list, pick, map[]);
      hide Picks, Insert;
      AbsorbsOnly(next, list[1..], pick, cap);
    }
  }

  lemma InsertWithin<K, V>(table: map<K, V>, entry: Option<(K, V)>, cap: nat)
    ensures |table| <= cap ==> |Insert(table, entry, cap)| <= cap
    ensures forall k | k in Insert(table, entry, cap) :: k in table || (entry.Some? && entry.value.0 == k)
    ensures forall k | k in table :: k in Insert(table, entry, cap)
  {
    if entry.Some? {
      OneMoreKey(table, entry.value.0, entry.value.1);
    }
  }

  /** No unexpired subnet ban has host length.  Promotion below host prefixes and the address
      form of manual host bans keep it so. */
  ghost predicate NoHostSubnet(bans: Bans, now: int) {
    forall t | t in bans.active && t.Subnet? && bans.active[t].expiresAt > now :: !IsHostNetwork(t.net)
  }

  lemma RecordTarget(bans: Bans, ban: ActiveBan) returns (t: BanTarget)
    requires BansAgree(bans) && ban in BanRecords(bans)
    ensures t in bans.active && bans.active[t] == ban && NetworkOf(t) == ban.network
  {
    t :| t in bans.active && bans.active[t] == ban;
  }

  function LiveActive(bans: Bans, now: int): map<BanTarget, ActiveBan> {
    bans.active - Expired(bans, now)
  }

  predicate Live(bans: Bans, t: BanTarget, now: int) {
    t in bans.active && bans.active[t].expiresAt > now
  }

  ghost predicate ListsRecords(list: seq<ActiveBan>, bans: Bans) {
    && (forall t | t in bans.active :: bans.active[t] in list && RecordOf(bans, t, bans.active[t]))
    && (forall ban | ban in list :: exists t :: RecordOf(bans, t, ban))
  }

  predicate RecordOf(bans: Bans, t: BanTarget, ban: ActiveBan) {
    t in bans.active && bans.active[t] == ban && NetworkOf(t) == ban.network
  }

  lemma ListedRecords(bans: Bans, list: seq<ActiveBan>)
    requires BansAgree(bans) && Lists(list, BanRecords(bans))
    ensures ListsRecords(list, bans)
  {
    hide CoveredBySubnet;
    forall t | t in bans.active ensures bans.active[t] in list {
      assert bans.active[t] in BanRecords(bans);
    }
    forall ban | ban in list ensures exists t :: RecordOf(bans, t, ban) {
      var t := RecordTarget(bans, ban);
      assert RecordOf(bans, t, ban);
    }
  }

  /** The subnet phase picks exactly the live subnet bans below host length. */
  lemma SubnetsPicked(bans: Bans, list: seq<ActiveBan>, now: int)
    requires ListsRecords(list, bans)
    ensures PicksFrom(list, PickSubnet(now), LiveActive(bans, now))
    ensures forall t: BanTarget ::
              Picks(list, PickSubnet(now), t) <==> t.Subnet? && Live(bans, t, now) && !IsHostNetwork(t.net)
  {
    var pick := PickSubnet(now);
    forall ban | ban in list && pick(ban).Some? ensures RecordOf(bans, pick(ban).value.0, ban) {
      var t :| RecordOf(bans, t, ban);
      assert t.Subnet?;
    }
    forall t: BanTarget | t.Subnet? && Live(bans, t, now) && !IsHostNetwork(t.net) ensures Picks(list, pick, t) {
      assert RecordOf(bans, t, bans.active[t]);
      assert pick(bans.active[t]) == Some((t, bans.active[t]));
    }
  }

  /** The address phase picks exactly the live single-address bans outside restored subnets. */
  lemma IpsPicked(bans: Bans, list: seq<ActiveBan>, now: int, nets: set<IpNet>)
    requires ListsRecords(list, bans) && NoHostSubnet(bans, now)
    ensures PicksFrom(list, PickIp(now, nets), LiveActive(bans, now))
    ensures forall t: BanTarget :: Picks(list, PickIp(now, nets), t) <==>
              t.Ip? && Live(bans, t, now) && !exists net | net in nets :: Contains(net, t.ip)
  {
    hide Contains;
    var pick := PickIp(now, nets);
    forall ban | ban in list && pick(ban).Some? ensures RecordOf(bans, pick(ban).value.0, ban) {
      var t :| RecordOf(bans, t, ban);
      assert t.Ip?;
    }
    forall t: BanTarget | t.Ip? && Live(bans, t, now) && !exists net | net in nets :: Contains(net, t.ip)
      ensures Picks(list, pick, t)
    {
      assert RecordOf(bans, t, bans.active[t]);
      assert pick(bans.active[t]) == Some((t, bans.active[t]));
    }
  }

  /** The restored ban table is the saved one without what has expired. */
  lemma RestoredActiveIsLive(cfg: Config, bans: Bans, list: seq<ActiveBan>, now: int)
    requires BansAgree(bans) && |LiveActive(bans, now)| <= cfg.maxActiveBans && Lists(list, BanRecords(bans))
    requires NoHostSubnet(bans, now)
    ensures RestoredActive(cfg, map[], list, now) == LiveActive(bans, now)
  {
    hide Absorb, Picks, PicksFrom, Lists, ListsRecords, BansAgree, NoHostSubnet, Live, Submap, NetsIn, LiveActive;
    hide BanRecords;
    ListedRecords(bans, list);
    SubnetsPicked(bans, list, now);
    NothingPart(LiveActive(bans, now));
    AbsorbsAll(map[], list, PickSubnet(now), cfg.maxActiveBans, LiveActive(bans, now));
    var subnets := Absorb(map[], list, PickSubnet(now), cfg.maxActiveBans);
    var nets := NetsIn(subnets.Keys);
    IpsPicked(bans, list, now, nets);
    AbsorbsAll(subnets, list, PickIp(now, nets), cfg.maxActiveBans, LiveActive(bans, now));
    var active := Absorb(subnets, list, PickIp(now, nets), cfg.maxActiveBans);
    RestoredKeys(bans, subnets, active, now);
    LiveOnly(bans, active, now);
  }

  lemma NothingPart(active: map<BanTarget, ActiveBan>)
    ensures Submap(map[], active)
  {
  }

  /** Single addresses are never lost to a restored subnet: the saved tables keep them apart. */
  lemma RestoredKeys(bans: Bans, subnets: map<BanTarget, ActiveBan>, active: map<BanTarget, ActiveBan>, now: int)
    requires BansAgree(bans) && NoHostSubnet(bans, now)
    requires forall t: BanTarget :: t in subnets <==> t.Subnet? && Live(bans, t, now) && !IsHostNetwork(t.net)
    requires forall t: BanTarget :: t in active <==>
               || t in subnets
               || (t.Ip? && Live(bans, t, now) && !exists net | net in NetsIn(subnets.Keys) :: Contains(net, t.ip))
    ensures forall t: BanTarget :: t in active <==> Live(bans, t, now)
  {
    hide Contains;
    forall t: BanTarget | t.Ip? && Live(bans, t, now) ensures t in active {
      assert t.ip in bans.ips && !CoveredBySubnet(bans, t.ip);
      forall net | net in NetsIn(subnets.Keys) ensures !Contains(net, t.ip) {
        assert Subnet(net) in subnets && Live(bans, Subnet(net), now);
        assert net in bans.nets;
      }
    }
  }

  lemma LiveOnly(bans: Bans, part: map<BanTarget, ActiveBan>, now: int)
    requires Submap(part, LiveActive(bans, now))
    requires forall t: BanTarget :: t in part <==> Live(bans, t, now)
    ensures part == LiveActive(bans, now)
  {
  }

  lemma ReputationPicked(bans: Bans, list: seq<ReputationEntry>, now: int)
    requires BansAgree(bans) && Lists(list, ReputationRecords(bans))
    ensures PicksFrom(list, PickReputation(now), LiveReputation(bans.reputation, now))
    ensures forall net :: Picks(list, PickReputation(now), net) <==>
              net in bans.reputation && bans.reputation[net].retainUntil > now
  {
    hide CoveredBySubnet, IpTargets, SubnetTargets;
    var pick := PickReputation(now);
    forall net | net in bans.reputation && bans.reputation[net].retainUntil > now ensures Picks(list, pick, net) {
      assert bans.reputation[net] in ReputationRecords(bans);
      assert pick(bans.reputation[net]) == Some((net, bans.reputation[net]));
    }
  }

  lemma RestoredReputationIsLive(cfg: Config, bans: Bans, list: seq<ReputationEntry>, now: int)
    requires BansAgree(bans) && Lists(list, ReputationRecords(bans))
    requires |LiveReputation(bans.reputation, now)| <= cfg.maxReputationEntries
    ensures Absorb(map[], list, PickReputation(now), cfg.maxReputationEntries) == LiveReputation(bans.reputation, now)
  {
    hide Absorb, Picks, PicksFrom, Lists, BansAgree, ReputationRecords;
    ReputationPicked(bans, list, now);
    AbsorbsAll(map[], list, PickReputation(now), cfg.maxReputationEntries, LiveReputation(bans.reputation, now));
  }

  /** Bans and reputation come back exactly as an expiry pass would leave them. */
  lemma RestoredBansAreLive(cfg: Config, s: AggState, file: PersistentState, now: int)
    requires BansAgree(s.bans) && BansWithinCaps(cfg, CleanedUp(cfg, s, now).bans) && Saves(s, file)
    requires NoHostSubnet(s.bans, now)
    ensures RestoredBans(cfg, EMPTY.bans, file, now) == CleanedUp(cfg, s, now).bans
  {
    RestoredActiveIsLive(cfg, s.bans, file.activeBans, now);
    RestoredReputationIsLive(cfg, s.bans, file.reputation, now);
    hide Absorb, RestoredActive, LiveReputation, NoHostSubnet, LiveScores, Lists;
    TargetsLeft(s.bans, Expired(s.bans, now));
  }

  lemma TargetsLeft(bans: Bans, gone: set<BanTarget>)
    requires BansAgree(bans)
    ensures IpsIn((bans.active - gone).Keys) == WithoutTargets(bans, gone).ips
    ensures NetsIn((bans.active - gone).Keys) == WithoutTargets(bans, gone).nets
  {
    hide CoveredBySubnet;
    forall ip | ip in WithoutTargets(bans, gone).ips ensures ip in IpsIn((bans.active - gone).Keys) {
      assert Ip(ip) in bans.active - gone;
    }
    forall net | net in WithoutTargets(bans, gone).nets ensures net in NetsIn((bans.active - gone).Keys) {
      assert Subnet(net) in bans.active - gone;
    }
  }

  // ---------- Scores, crossings and rule statistics ----------

  lemma ScoresPicked(cfg: Config, scores: Scores, list: seq<ScoreEntry>, now: int)
    requires Lists(list, ScoreRecords(scores)) && scores.counts.Keys == scores.lastSeen.Keys
    ensures PicksFrom(list, PickCount(cfg, now), LiveScores(cfg, scores, now).counts)
    ensures PicksFrom(list, PickSeen(cfg, now), LiveScores(cfg, scores, now).lastSeen)
    ensures forall ip :: Picks(list, PickCount(cfg, now), ip) <==>
              ip in scores.counts && scores.lastSeen[ip] + cfg.scoreRetention > now
    ensures forall ip :: Picks(list, PickSeen(cfg, now), ip) <==> Picks(list, PickCount(cfg, now), ip)
  {
    hide Regroup, LiveOffenders;
    forall ip | ip in scores.counts && scores.lastSeen[ip] + cfg.scoreRetention > now
      ensures Picks(list, PickCount(cfg, now), ip) && Picks(list, PickSeen(cfg, now), ip)
    {
      var entry := ScoreEntry(ip, scores.counts[ip], scores.lastSeen[ip]);
      assert entry in ScoreRecords(scores);
      assert PickCount(cfg, now)(entry) == Some((ip, entry.score));
      assert PickSeen(cfg, now)(entry) == Some((ip, entry.lastSeen));
    }
  }

  /** `part` records some of the crossings of `whole`, and no empty tables. */
  ghost predicate CrossingsPart(part: Offenders, whole: Offenders) {
    && (forall net | net in part :: part[net] != map[])
    && (forall p | p in OffenderPairs(part) :: p in OffenderPairs(whole) && part[p.0][p.1] == whole[p.0][p.1])
  }

  ghost predicate ListsCrossing(list: seq<CrossingEntry>, cutoff: int, p: (IpNet, IpAddr)) {
    exists entry | entry in list :: entry.crossedAt > cutoff && (entry.subnet, entry.ip) == p
  }

  lemma AddedPairs(part: Offenders, entry: CrossingEntry)
    ensures OffenderPairs(AddCrossing(part, entry)) == OffenderPairs(part) + {(entry.subnet, entry.ip)}
  {
    var after := AddCrossing(part, entry);
    forall net, ip ensures (net, ip) in OffenderPairs(after) <==>
                           (net, ip) in OffenderPairs(part) || (net, ip) == (entry.subnet, entry.ip)
    {
      assert after[entry.subnet].Keys == OffendersOf(part, entry.subnet).Keys + {entry.ip};
      assert (net, ip) in OffenderPairs(part) <==> net in part && ip in part[net];
      assert (net, ip) in OffenderPairs(after) <==> net in after && ip in after[net];
    }
  }

  lemma AddsPart(part: Offenders, entry: CrossingEntry, whole: Offenders)
    requires CrossingsPart(part, whole) && entry in CrossingRecords(whole)
    ensures CrossingsPart(AddCrossing(part, entry), whole)
    ensures OffenderPairs(AddCrossing(part, entry)) == OffenderPairs(part) + {(entry.subnet, entry.ip)}
  {
    var after := AddCrossing(part, entry);
    AddedPairs(part, entry);
    assert entry.ip in after[entry.subnet];
    forall p | p in OffenderPairs(after)
      ensures p in OffenderPairs(whole) && after[p.0][p.1] == whole[p.0][p.1]
    {
      if p != (entry.subnet, entry.ip) {
        assert p in OffenderPairs(part);
      }
    }
  }

  lemma {:induction false} AddsCrossings(part: Offenders, list: seq<CrossingEntry>, cutoff: int, whole: Offenders)
    requires CrossingsPart(part, whole) && forall entry | entry in list :: entry in CrossingRecords(whole)
    ensures CrossingsPart(AddCrossings(part, list, cutoff), whole)
    ensures forall p :: p in OffenderPairs(AddCrossings(part, list, cutoff)) <==>
              p in OffenderPairs(part) || ListsCrossing(list, cutoff, p)
    decreases |list|
  {
    hide CrossingsPart, AddCrossing, OffenderPairs, CrossingRecords;
    if list != [] {
      assert list[0] in list && forall entry | entry in list[1..] :: entry in list;
      assert forall entry | entry in list :: entry == list[0] || entry in list[1..];
      AddsPart(part, list[0], whole);
      AddsCrossings(if list[0].crossedAt > cutoff then AddCrossing(part, list[0]) else part, list[1..], cutoff, whole);
    }
  }

  lemma LiveCrossings(part: Offenders, whole: Offenders, cutoff: int)
    requires CrossingsPart(part, whole)
    requires forall p :: p in OffenderPairs(part) <==> p in OffenderPairs(whole) && whole[p.0][p.1] > cutoff
    ensures part == LiveOffenders(whole, cutoff)
  {
    var live := LiveOffenders(whole, cutoff);
    forall net ensures net in part <==> net in live {
      if net in part {
        var ip :| ip in part[net];
        assert (net, ip) in OffenderPairs(part);
        assert ip in After(whole[net], cutoff);
      }
      if net in live {
        var ip :| ip in After(whole[net], cutoff);
        assert (net, ip) in OffenderPairs(whole);
        assert (net, ip) in OffenderPairs(part);
      }
    }
    forall net | net in part ensures part[net] == live[net] {
      forall ip ensures ip in part[net] <==> ip in live[net] {
        assert ip in part[net] <==> (net, ip) in OffenderPairs(part);
      }
      assert forall ip | ip in part[net] :: (net, ip) in OffenderPairs(part);
    }
  }

  lemma RestoredCrossingsAreLive(offenders: Offenders, list: seq<CrossingEntry>, cutoff: int)
    requires Lists(list, CrossingRecords(offenders))
    ensures AddCrossings(map[], list, cutoff) == LiveOffenders(offenders, cutoff)
  {
    AddsCrossings(map[], list, cutoff, offenders);
    var restored := AddCrossings(map[], list, cutoff);
    hide AddCrossings, CrossingsPart;
    forall p ensures p in OffenderPairs(restored) <==> p in OffenderPairs(offenders) && offenders[p.0][p.1] > cutoff {
      if p in OffenderPairs(offenders) && offenders[p.0][p.1] > cutoff {
        assert CrossingEntry(p.0, p.1, offenders[p.0][p.1]) in list;
      }
    }
    LiveCrossings(restored, offenders, cutoff);
  }

  lemma {:induction false} AddsRules(rules: map<string, RuleStats>, list: seq<RuleEntry>, whole: map<string, RuleStats>)
    requires Submap(rules, whole)
    requires forall entry | entry in list ::
               entry.name in whole && entry.stats == whole[entry.name] && entry.name !in rules
    requires forall i, j | 0 <= i < j < |list| :: list[i].name != list[j].name
    ensures Submap(AddRules(rules, list), whole)
    ensures forall name ::
              name in AddRules(rules, list) <==> name in rules || exists entry | entry in list :: entry.name == name
    decreases |list|
  {
    if list != [] {
      var next := AddRule(rules, list[0]);
      assert list[0] in list && forall entry | entry in list[1..] :: entry in list;
      assert forall entry | entry in list :: entry == list[0] || entry in list[1..];
      assert Submap(next, whole);
      assert forall i | 0 <= i < |list[1..]| :: list[1..][i].name != list[0].name;
      hide AddRule;
      AddsRules(next, list[1..], whole);
    }
  }

  lemma RestoredRulesAreSaved(rules: map<string, RuleStats>, list: seq<RuleEntry>)
    requires Lists(list, RuleRecords(rules))
    ensures AddRules(map[], list) == rules
  {
    AddsRules(map[], list, rules);
    hide AddRules;
    forall name | name in rules ensures exists entry | entry in list :: entry.name == name {
      assert RuleEntry(name, rules[name]) in list;
    }
  }

  lemma RestoredScoresAreLive(cfg: Config, scores: Scores, file: PersistentState, now: int)
    requires ScoresAgree(cfg, scores) && IpsWithinCap(cfg, LiveScores(cfg, scores, now))
    requires Lists(file.scores, ScoreRecords(scores)) && Lists(file.subnetOffenders, CrossingRecords(scores.offenders))
    ensures RestoredScores(cfg, EMPTY.scores, file, now) == LiveScores(cfg, scores, now)
  {
    hide Regroup, Absorb, Lists, AddCrossings, LiveOffenders, ScoreRecords, CrossingRecords, PickCount, PickSeen;
    hide IpsWithinCap;
    RestoredCountsAreLive(cfg, scores, file.scores, now);
    RestoredCrossingsAreLive(scores.offenders, file.subnetOffenders, now - cfg.promotionWindow);
  }

  lemma RestoredCountsAreLive(cfg: Config, scores: Scores, list: seq<ScoreEntry>, now: int)
    requires scores.counts.Keys == scores.lastSeen.Keys && IpsWithinCap(cfg, LiveScores(cfg, scores, now))
    requires Lists(list, ScoreRecords(scores))
    ensures Absorb(map[], list, PickCount(cfg, now), cfg.maxTrackedIps) == LiveScores(cfg, scores, now).counts
    ensures Absorb(map[], list, PickSeen(cfg, now), cfg.maxTrackedIps) == LiveScores(cfg, scores, now).lastSeen
  {
    LiveScoresPart(cfg, scores, now);
    ScoresPicked(cfg, scores, list, now);
    hide Absorb, Picks, PicksFrom, Lists, ScoreRecords, Submap, LiveScores;
    var live := LiveScores(cfg, scores, now);
    AbsorbsAll(map[], list, PickCount(cfg, now), cfg.maxTrackedIps, live.counts);
    AbsorbsAll(map[], list, PickSeen(cfg, now), cfg.maxTrackedIps, live.lastSeen);
    SameTable(Absorb(map[], list, PickCount(cfg, now), cfg.maxTrackedIps), live.counts, live.counts);
    SameTable(Absorb(map[], list, PickSeen(cfg, now), cfg.maxTrackedIps), live.lastSeen, live.lastSeen);
  }

  lemma LiveScoresPart(cfg: Config, scores: Scores, now: int)
    requires scores.counts.Keys == scores.lastSeen.Keys
    ensures
      var live := LiveScores(cfg, scores, now);
      && Submap(map[], live.counts) && Submap(map[], live.lastSeen)
      && Submap(live.counts, live.counts) && Submap(live.lastSeen, live.lastSeen)
      && |live.lastSeen| == |live.counts|
      && (forall ip :: ip in live.counts <==> ip in scores.counts && scores.lastSeen[ip] + cfg.scoreRetention > now)
      && (forall ip :: ip in live.lastSeen <==> ip in live.counts)
  {
    hide Regroup, LiveOffenders;
    var live := LiveScores(cfg, scores, now);
    assert live.counts.Keys == live.lastSeen.Keys;
    assert |live.lastSeen| == |live.lastSeen.Keys| && |live.counts| == |live.counts.Keys|;
  }

  lemma SameTable<K, V>(left: map<K, V>, whole: map<K, V>, right: map<K, V>)
    requires Submap(left, whole) && Submap(right, whole)
    requires forall k :: k in left <==> k in right
    ensures left == right
  {
  }

  // ---------- The round trip ----------

  /** The unexpired scores, bans and reputations are within their caps. */
  ghost predicate LiveWithinCaps(cfg: Config, s: AggState, now: int) {
    IpsWithinCap(cfg, CleanedUp(cfg, s, now).scores) && BansWithinCaps(cfg, CleanedUp(cfg, s, now).bans)
  }

  /** Restoring a save is an expiry pass, whatever the order of the file. */
  lemma RestoreIsCleanup(cfg: Config, s: AggState, file: PersistentState, now: int)
    requires Agrees(cfg, s) && Saves(s, file)
    requires NoHostSubnet(s.bans, now) && LiveWithinCaps(cfg, s, now)
    ensures Restored(cfg, EMPTY, file, now) == CleanedUp(cfg, s, now).(evictions := 0)
  {
    RestoredScoresAreLive(cfg, s.scores, file, now);
    RestoredBansAreLive(cfg, s, file, now);
    RestoredRulesAreSaved(s.rules, file.ruleStats);
    hide RestoredScores, RestoredBans, LiveScores, WithoutTargets, AddRules, LiveReputation, Lists, NoHostSubnet;
  }

  /** A restored subnet target never has host length. */
  lemma RestoredTargets(cfg: Config, file: PersistentState, now: int, t: BanTarget)
    requires t.Subnet? && IsHostNetwork(t.net)
    ensures t !in Restored(cfg, EMPTY, file, now).bans.active
  {
    var list := file.activeBans;
    var subnets := Absorb(map[], list, PickSubnet(now), cfg.maxActiveBans);
    AbsorbsOnly(map[], list, PickSubnet(now), cfg.maxActiveBans);
    AbsorbsOnly(subnets, list, PickIp(now, NetsIn(subnets.Keys)), cfg.maxActiveBans);
    hide Absorb, RestoredScores, AddRules;
  }

  lemma StaysActive(cfg: Config, s: AggState, now: int, t: BanTarget)
    requires Live(s.bans, t, now)
    ensures t in CleanedUp(cfg, s, now).bans.active
  {
    hide LiveScores, LiveReputation;
  }

  /** The round trip fails exactly when an unexpired subnet ban has host length, or when a cap
      shrunk since leaves no room for all that is unexpired. */
  lemma RestoreIsCleanupExactlyWhen(cfg: Config, s: AggState, file: PersistentState, now: int)
    requires Agrees(cfg, s) && Saves(s, file)
    ensures Restored(cfg, EMPTY, file, now) == CleanedUp(cfg, s, now).(evictions := 0)
       <==> NoHostSubnet(s.bans, now) && LiveWithinCaps(cfg, s, now)
  {
    hide Restored, CleanedUp, Agrees, Saves, BansWithinCaps, IpsWithinCap;
    RestoredAgrees(cfg, file, now);
    if NoHostSubnet(s.bans, now) {
      if LiveWithinCaps(cfg, s, now) {
        RestoreIsCleanup(cfg, s, file, now);
      }
    } else {
      var t :| Live(s.bans, t, now) && t.Subnet? && IsHostNetwork(t.net);
      StaysActive(cfg, s, now, t);
      RestoredTargets(cfg, file, now, t);
    }
  }

  /** One such state: a single address banned as a network of host length comes back as an
      address ban. */
  lemma HostSubnetComesBackAsAddress(cfg: Config, ip: IpAddr)
    ensures
      var net := HostNetwork(ip);
      var ban := ActiveBan(net, "", "", 0, 2, 0, 1, None);
      var s := EMPTY.(bans := Bans({}, {net}, map[Subnet(net) := ban], map[]));
      var file := PersistentState(SCHEMA_VERSION, [ban], [], [], [], []);
      Agrees(cfg, s) && Saves(s, file) && Restored(cfg, EMPTY, file, 1) != CleanedUp(cfg, s, 1).(evictions := 0)
  {
    var net := HostNetwork(ip);
    var ban := ActiveBan(net, "", "", 0, 2, 0, 1, None);
    var s := EMPTY.(bans := Bans({}, {net}, map[Subnet(net) := ban], map[]));
    var file := PersistentState(SCHEMA_VERSION, [ban], [], [], [], []);
    HostSubnetIsSaved(cfg, s, ban, file);
    hide Saves, Restored, CleanedUp;
    assert Live(s.bans, Subnet(net), 1);
    RestoreIsCleanupExactlyWhen(cfg, s, file, 1);
  }

  /** Another: two single-address bans saved, and a cap shrunk to one since. */
  lemma ShrunkCapLosesBan(cfg: Config, one: IpAddr, two: IpAddr)
    requires one != two && cfg.maxActiveBans == 1
    ensures
      var bans := TwoBans(one, two);
      var s := EMPTY.(bans := bans);
      var file := PersistentState(SCHEMA_VERSION, [bans.active[Ip(one)], bans.active[Ip(two)]], [], [], [], []);
      Agrees(cfg, s) && Saves(s, file) && Restored(cfg, EMPTY, file, 1) != CleanedUp(cfg, s, 1).(evictions := 0)
  {
    var bans := TwoBans(one, two);
    var s := EMPTY.(bans := bans);
    var file := PersistentState(SCHEMA_VERSION, [bans.active[Ip(one)], bans.active[Ip(two)]], [], [], [], []);
    TwoBansAreSaved(cfg, one, two, s, file);
    TwoBansStay(cfg, one, two, s);
    hide Saves, Restored, Agrees, CleanedUp, TwoBans;
    RestoreIsCleanupExactlyWhen(cfg, s, file, 1);
  }

  lemma TwoBansStay(cfg: Config, one: IpAddr, two: IpAddr, s: AggState)
    requires one != two && s == EMPTY.(bans := TwoBans(one, two))
    ensures |CleanedUp(cfg, s, 1).bans.active| == 2
  {
    hide LiveScores, LiveReputation;
    var active := CleanedUp(cfg, s, 1).bans.active;
    assert Expired(s.bans, 1) == {};
    assert active.Keys == {Ip(one), Ip(two)} && |active.Keys| == |active|;
  }

  function TwoBans(one: IpAddr, two: IpAddr): Bans {
    var ban := (ip: IpAddr) => ActiveBan(HostNetwork(ip), "", "", 0, 2, 0, 1, None);
    Bans({one, two}, {}, map[Ip(one) := ban(one), Ip(two) := ban(two)], map[])
  }

  lemma TwoBansAreSaved(cfg: Config, one: IpAddr, two: IpAddr, s: AggState, file: PersistentState)
    requires one != two && s == EMPTY.(bans := TwoBans(one, two))
    requires file == PersistentState(SCHEMA_VERSION, [s.bans.active[Ip(one)], s.bans.active[Ip(two)]], [], [], [], [])
    ensures Agrees(cfg, s) && Saves(s, file)
  {
    assert s.scores.subnets == Regroup(cfg, s.scores.counts);
    assert s.bans.active.Keys == {Ip(one), Ip(two)} == IpTargets(s.bans.ips);
    assert BanRecords(s.bans) == {s.bans.active[Ip(one)], s.bans.active[Ip(two)]};
    assert ScoreRecords(s.scores) == {} && ReputationRecords(s.bans) == {};
    assert CrossingRecords(s.scores.offenders) == {} && RuleRecords(s.rules) == {};
  }

  lemma HostSubnetIsSaved(cfg: Config, s: AggState, ban: ActiveBan, file: PersistentState)
    requires IsHostNetwork(ban.network)
    requires s == EMPTY.(bans := Bans({}, {ban.network}, map[Subnet(ban.network) := ban], map[]))
    requires file == PersistentState(SCHEMA_VERSION, [ban], [], [], [], [])
    ensures Agrees(cfg, s) && Saves(s, file)
  {
    assert s.scores.subnets == Regroup(cfg, s.scores.counts);
    assert s.bans.active.Keys == {Subnet(ban.network)} == SubnetTargets(s.bans.nets);
    assert BanRecords(s.bans) == {ban} && ScoreRecords(s.scores) == {} && ReputationRecords(s.bans) == {};
    assert CrossingRecords(s.scores.offenders) == {} && RuleRecords(s.rules) == {};
  }

  // ---------- Restoring an arbitrary file ----------

  ghost predicate AllGood<K(!new), V(!new)>(table: map<K, V>, good: (K, V) -> bool) {
    forall k | k in table :: good(k, table[k])
  }

  lemma {:induction false} AbsorbsGood<K(!new), V(!new), E>(
    table: map<K, V>, list: seq<E>, pick: E -> Option<(K, V)>, cap: nat, good: (K, V) -> bool)
    requires AllGood(table, good)
    requires forall e | e in list && pick(e).Some? :: good(pick(e).value.0, pick(e).value.1)
    ensures AllGood(Absorb(table, list, pick, cap), good)
    decreases |list|
  {
    if list != [] {
      assert list[0] in list && forall e | e in list[1..] :: e in list;
      AbsorbsGood(Insert(table, pick(list[0]), cap), list[1..], pick, cap, good);
    }
  }

  /** Two tables filled side by side keep one domain. */
  lemma {:induction false} AbsorbSideBySide<K, V, W, E>(
    left: map<K, V>, right: map<K, W>, list: seq<E>, pick: E -> Option<(K, V)>, other: E -> Option<(K, W)>, cap: nat)
    requires left.Keys == right.Keys
    requires forall e | e in list :: (pick(e).Some? <==> other(e).Some?)
                                     && (pick(e).Some? ==> pick(e).value.0 == other(e).value.0)
    ensures Absorb(left, list, pick, cap).Keys == Absorb(right, list, other, cap).Keys
    decreases |list|
  {
    if list != [] {
      assert list[0] in list && forall e | e in list[1..] :: e in list;
      assert |left| == |left.Keys| && |right| == |right.Keys|;
      AbsorbSideBySide(Insert(left, pick(list[0]), cap), Insert(right, other(list[0]), cap), list[1..], pick, other,
                       cap);
    }
  }

  function OutsideNets(nets: set<IpNet>): (BanTarget, ActiveBan) -> bool {
    (t: BanTarget, ban: ActiveBan) =>
      ban.network == NetworkOf(t) && (t.Ip? ==> !exists net | net in nets :: Contains(net, t.ip))
  }

  lemma RestoredActiveAgrees(cfg: Config, list: seq<ActiveBan>, now: int)
    ensures
      var active := RestoredActive(cfg, map[], list, now);
      && AllGood(active, OutsideNets(NetsIn(active.Keys)))
      && |active| <= cfg.maxActiveBans
  {
    hide Contains, Absorb;
    var subnets := Absorb(map[], list, PickSubnet(now), cfg.maxActiveBans);
    AbsorbsOnly(map[], list, PickSubnet(now), cfg.maxActiveBans);
    assert forall t: BanTarget | t in subnets :: t.Subnet?;
    var nets := NetsIn(subnets.Keys);
    AbsorbsGood(map[], list, PickSubnet(now), cfg.maxActiveBans, OutsideNets(nets));
    AbsorbsOnly(subnets, list, PickIp(now, nets), cfg.maxActiveBans);
    AbsorbsGood(subnets, list, PickIp(now, nets), cfg.maxActiveBans, OutsideNets(nets));
    var active := RestoredActive(cfg, map[], list, now);
    hide Absorb, AllGood;
    assert forall t: BanTarget | t in active && t.Subnet? :: t in subnets;
    assert NetsIn(active.Keys) == nets;
  }

  /** Whatever a file holds and in whatever order, a fresh aggregator restored from it keeps its
      tables in agreement and its addresses, bans and reputations within their caps. */
  lemma RestoredAgrees(cfg: Config, file: PersistentState, now: int)
    ensures Agrees(cfg, Restored(cfg, EMPTY, file, now))
    ensures IpsWithinCap(cfg, Restored(cfg, EMPTY, file, now).scores)
    ensures BansWithinCaps(cfg, Restored(cfg, EMPTY, file, now).bans)
  {
    hide RestoredScores, RestoredBans, AddRules;
    RestoredBansAgree(cfg, file, now);
    RestoredScoresAgree(cfg, file, now);
  }

  lemma RestoredScoresAgree(cfg: Config, file: PersistentState, now: int)
    ensures ScoresAgree(cfg, RestoredScores(cfg, EMPTY.scores, file, now))
    ensures IpsWithinCap(cfg, RestoredScores(cfg, EMPTY.scores, file, now))
  {
    AbsorbSideBySide(map[], map[], file.scores, PickCount(cfg, now), PickSeen(cfg, now), cfg.maxTrackedIps);
    AbsorbsOnly(map[], file.scores, PickCount(cfg, now), cfg.maxTrackedIps);
    hide Absorb, Regroup, AddCrossings;
  }

  lemma RestoredBansAgree(cfg: Config, file: PersistentState, now: int)
    ensures BansAgree(RestoredBans(cfg, EMPTY.bans, file, now))
    ensures BansWithinCaps(cfg, RestoredBans(cfg, EMPTY.bans, file, now))
  {
    RestoredActiveAgrees(cfg, file.activeBans, now);
    var keyed := (net: IpNet, entry: ReputationEntry) => entry.network == net;
    AbsorbsGood(map[], file.reputation, PickReputation(now), cfg.maxReputationEntries, keyed);
    AbsorbsOnly(map[], file.reputation, PickReputation(now), cfg.maxReputationEntries);
    hide Absorb, RestoredActive, OutsideNets, BansAgree, Picks;
    GoodTablesAgree(RestoredActive(cfg, map[], file.activeBans, now),
                    Absorb(map[], file.reputation, PickReputation(now), cfg.maxReputationEntries));
  }

  lemma GoodTablesAgree(active: map<BanTarget, ActiveBan>, reputation: map<IpNet, ReputationEntry>)
    requires AllGood(active, OutsideNets(NetsIn(active.Keys)))
    requires forall net | net in reputation :: reputation[net].network == net
    ensures BansAgree(Bans(IpsIn(active.Keys), NetsIn(active.Keys), active, reputation))
  {
    TargetsSplit(active);
    hide Contains;
    forall t | t in active ensures active[t].network == NetworkOf(t) {
      assert OutsideNets(NetsIn(active.Keys))(t, active[t]);
    }
    forall ip | ip in IpsIn(active.Keys) ensures !exists net | net in NetsIn(active.Keys) :: Contains(net, ip) {
      assert OutsideNets(NetsIn(active.Keys))(Ip(ip), active[Ip(ip)]);
    }
  }

  lemma TargetsSplit(active: map<BanTarget, ActiveBan>)
    ensures active.Keys == IpTargets(IpsIn(active.Keys)) + SubnetTargets(NetsIn(active.Keys))
  {
    forall t | t in active ensures t in IpTargets(IpsIn(active.Keys)) + SubnetTargets(NetsIn(active.Keys)) {
      assert if t.Ip? then t.ip in IpsIn(active.Keys) else t.net in NetsIn(active.Keys);
    }
  }
}
