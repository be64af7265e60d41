/** How long bans last over whole runs, and what a reset forgets for good. */
module WorkerDurations {
  import opened Wrappers
  import opened Networks
  import opened Counters
  import opened AggregateState
  import opened AggregateSteps
  import opened AggregateInvariants
  import opened TableEffects
  import opened RecordEffects
  import opened BanEffects
  import opened Persistence
  import opened WorkerSteps
  import opened WorkerRuns
  import opened WorkerRecovery
  import opened WorkerEscalation

  /** The n-th ban lasts the first, second or third time, and the longest from the fourth on. */
  function NthTime(cfg: Config, n: nat): int
    requires n > 0
  {
    if n == 1 then cfg.firstBan else if n == 2 then cfg.secondBan else if n == 3 then cfg.thirdBan else cfg.maxBan
  }

  // ---------- Automatic bans ----------

  /** A hit that bans an address reports just that, and one that promotes a subnet just that. */
  lemma HitReports(w: World, m: Move, w': World, t: BanTarget)
    requires Step(w, m, w') && m.event.Hit? && t in BannedTargets(m.event)
    ensures
      var e := m.event;
      && e.recorded.Success?
      && RecordStep(w.config.aggregation, w.agg, w.entries, e.ip, e.weight, e.rule, m.now, e.evicted,
                    w'.agg, w'.entries, e.recorded)
      && (t.Ip? ==> t.ip == e.ip && e.recorded.value.transitions == [Banned(t)])
      && (t.Subnet? ==> exists removed :: e.recorded.value.transitions == [Promoted(t.net, removed)])
  {
    var e, cfg := m.event, w.config.aggregation;
    hide RecordStep, IsException, Saves;
    ReportingHitIsUnexcepted(w, m, w');
    OneTransition(cfg, w.agg, w.entries, e.ip, e.weight, e.rule, m.now, e.evicted, w'.agg, w'.entries, e.recorded);
  }

  lemma ReportingHitIsUnexcepted(w: World, m: Move, w': World)
    requires m.event.Hit? && HitStep(w, m.event, m.now, m.due, w') && BannedTargets(m.event) != {}
    ensures !IsException(m.event.ip, w.config.exceptions)
  {
    hide RecordStep, IsException, Saves;
  }

  lemma OneTransition(cfg: Config, s: AggState, entries: set<BanTarget>, ip: IpAddr, weight: u64, rule: string,
                      now: int, gone: Evicted, s': AggState, entries': set<BanTarget>,
                      r: Result<RecordResult, BackendError>)
    requires RecordStep(cfg, s, entries, ip, weight, rule, now, gone, s', entries', r)
    ensures r.Success? ==>
      || r.value.transitions == [] || r.value.transitions == [Banned(Ip(ip))]
      || exists net, removed :: r.value.transitions == [Promoted(net, removed)]
  {
    hide RoomChoice, RoomFor, Added, SubnetFor, CrossingChoice, Crossed, WithoutCrossing, Lost, CountMatch, CountBans;
    hide ShouldPromote, PromotionBan, ThresholdBan, PlaceStep, CoveredBySubnet;
  }

  lemma RunSteps(config: WorkerConfig, start: int, worlds: seq<World>, moves: seq<Move>, i: nat)
    requires OrdinaryRun(config, start, worlds, moves) && i < |moves|
    ensures |worlds| == |moves| + 1 && Step(worlds[i], moves[i], worlds[i + 1])
  {
    hide Step;
  }

  /** From an empty disk on, through crashes and restarts: an address's n-th automatic ban since
      it was last forgotten lasts the n-th time. */
  lemma NthBanLasts(config: WorkerConfig, start: int, worlds: seq<World>, moves: seq<Move>, i: nat, ip: IpAddr)
    requires OrdinaryRun(config, start, worlds, moves) && i < |moves|
    requires moves[i].event.Hit? && Ip(ip) in BannedTargets(moves[i].event)
    ensures Ip(ip) in worlds[i + 1].agg.bans.active
    ensures worlds[i + 1].agg.bans.active[Ip(ip)].expiresAt
         == moves[i].now + NthTime(config.aggregation, BanCount(worlds, moves, i, HostNetwork(ip)) + 1)
  {
    hide BanCount, Step, BannedTargets, OrdinaryRun, HostNetwork;
    RunSteps(config, start, worlds, moves, i);
    NthBan(config, start, worlds, moves, i, Ip(ip));
    ConfigStays(config, start, worlds, moves, i);
    AddressBanLasts(worlds[i], moves[i], worlds[i + 1], ip);
  }

  lemma AddressBanLasts(w: World, m: Move, w': World, ip: IpAddr)
    requires Step(w, m, w') && m.event.Hit? && Ip(ip) in BannedTargets(m.event)
    ensures Ip(ip) in w'.agg.bans.active
    ensures
      var b := w'.agg.bans.active[Ip(ip)];
      LastsFor(w.config.aggregation, b.offenseCount, b.expiresAt - m.now)
  {
    hide Step, BannedTargets, RecordStep;
    var e := m.event;
    HitReports(w, m, w', Ip(ip));
    AddressBanRecord(w.config.aggregation, w.agg, w.entries, ip, e.weight, e.rule, m.now, e.evicted, w'.agg, w'.entries,
                     e.recorded);
  }

  /** A promoted subnet's n-th ban lasts the n-th time or the subnet's own, the longer of them. */
  lemma NthPromotionLasts(config: WorkerConfig, start: int, worlds: seq<World>, moves: seq<Move>, i: nat, net: IpNet)
    requires OrdinaryRun(config, start, worlds, moves) && i < |moves|
    requires moves[i].event.Hit? && Subnet(net) in BannedTargets(moves[i].event)
    ensures Subnet(net) in worlds[i + 1].agg.bans.active
    ensures
      var time := NthTime(config.aggregation, BanCount(worlds, moves, i, net) + 1);
      worlds[i + 1].agg.bans.active[Subnet(net)].expiresAt
      == moves[i].now + if time < config.aggregation.subnetBan then config.aggregation.subnetBan else time
  {
    hide BanCount, Step, BannedTargets, OrdinaryRun;
    RunSteps(config, start, worlds, moves, i);
    NthBan(config, start, worlds, moves, i, Subnet(net));
    ConfigStays(config, start, worlds, moves, i);
    PromotionLasts(worlds[i], moves[i], worlds[i + 1], net);
    var n := BanCount(worlds, moves, i, net) + 1;
    assert LastsFor(config.aggregation, Saturated(n), NthTime(config.aggregation, n));
  }

  lemma PromotionLasts(w: World, m: Move, w': World, net: IpNet)
    requires Step(w, m, w') && m.event.Hit? && Subnet(net) in BannedTargets(m.event)
    ensures Subnet(net) in w'.agg.bans.active
    ensures
      var b, cfg := w'.agg.bans.active[Subnet(net)], w.config.aggregation;
      && b.expiresAt >= m.now + cfg.subnetBan
      && (b.expiresAt == m.now + cfg.subnetBan || LastsFor(cfg, b.offenseCount, b.expiresAt - m.now))
      && (forall seconds: int | LastsFor(cfg, b.offenseCount, seconds) :: b.expiresAt >= m.now + seconds)
  {
    hide Step, BannedTargets, RecordStep, LastsFor;
    var e := m.event;
    HitReports(w, m, w', Subnet(net));
    var removed :| e.recorded.value.transitions == [Promoted(net, removed)];
    PromotionRecord(w.config.aggregation, w.agg, w.entries, e.ip, e.weight, e.rule, m.now, e.evicted, w'.agg,
                    w'.entries,
                    e.recorded, net, removed);
  }

  // ---------- A ban's whole life ----------

  /** An event that renews a ban or takes it over by one of a subnet around it. */
  ghost predicate Replaces(e: Event, t: BanTarget) {
    exists u | u in BannedTargets(e) :: u == t || (u.Subnet? && t.Ip? && Contains(u.net, t.ip))
  }

  /** A policy update that excepts the ban. */
  predicate Excepts(e: Event, t: BanTarget) {
    e.Update? && IsExcepted(t, e.config.exceptions)
  }

  lemma HitKeepsOthers(w: World, m: Move, w': World, t: BanTarget)
    requires m.event.Hit? && HitStep(w, m.event, m.now, m.due, w') && TablesAgree(w)
    requires t in w.agg.bans.active && !Replaces(m.event, t)
    ensures t in w'.agg.bans.active && w'.agg.bans.active[t] == w.agg.bans.active[t]
  {
    var e, cfg := m.event, w.config.aggregation;
    hide RecordStep, PlaceStep, BansAgree, ScoresAgree, AttemptOf, IsException, SubnetFor, Saves, ReportedTargets,
         Contains;
    if !IsException(e.ip, w.config.exceptions) {
      var attempt := RecordAttempts(cfg, w.agg, w.entries, e.ip, e.weight, e.rule, m.now, e.evicted,
                                    w'.agg, w'.entries, e.recorded);
      RecordTargets(cfg, w.agg, w.entries, e.ip, e.weight, e.rule, m.now, e.evicted, w'.agg, w'.entries, e.recorded);
      if attempt.Some? && e.recorded.Success? {
        assert attempt.value.target in BannedTargets(e);
        PlacingKeepsOthers(cfg, w.agg.bans, w.entries, attempt.value.target, attempt.value.ban, e.evicted.reputation,
                           w'.agg.bans, w'.entries, e.recorded.value.cleanupErrors, t);
      } else {
        NoBanLeavesBans(cfg, w.agg, w.entries, e.ip, e.weight, e.rule, m.now, e.evicted, w'.agg, w'.entries,
                        e.recorded);
      }
    }
  }

  lemma AddBanKeepsOthers(w: World, m: Move, w': World, t: BanTarget)
    requires m.event.AddBan? && AddBanMove(w, m.event, m.now, w') && TablesAgree(w)
    requires t in w.agg.bans.active && !Replaces(m.event, t)
    ensures t in w'.agg.bans.active && w'.agg.bans.active[t] == w.agg.bans.active[t]
  {
    var e, cfg := m.event, w.config.aggregation;
    hide PlaceStep, BansAgree, ScoresAgree, Saves, Contains, CoveredBySubnet, ManualBan;
    if e.added.Success? {
      assert e.target in BannedTargets(e);
      var ban := ManualBan(cfg, w.agg.bans, e.target, e.seconds, e.reason, m.now);
      PlacingKeepsOthers(cfg, w.agg.bans, w.entries, e.target, ban, e.forgotten, w'.agg.bans, w'.entries, e.failed, t);
    } else if GoodDuration(w.config, e.seconds) {
      var r := Failure(e.added.error.error);
      hide AddManualStep;
      ManualBanRecord(cfg, w.agg, w.entries, e.target, e.seconds, e.reason, m.now, e.failed, e.forgotten,
                      w'.agg, w'.entries, r);
    }
  }

  /** A ban stays, record and all, through every move before its end, unless it is replaced or a
      policy excepts it. */
  lemma StepKeepsBan(w: World, m: Move, w': World, t: BanTarget)
    requires Step(w, m, w') && TablesAgree(w) && (m.event.Restart? ==> Sound(w, m.now))
    requires t in w.agg.bans.active && m.now < w.agg.bans.active[t].expiresAt
    requires !Replaces(m.event, t) && !Excepts(m.event, t)
    ensures t in w'.agg.bans.active && w'.agg.bans.active[t] == w.agg.bans.active[t]
  {
    hide HitStep, AddBanMove, CleanupMove, UpdateMove, Starts, Sound, Replaces, TablesAgree, Saves, Excepts;
    match m.event
    case Hit(_, _, _, _, _) => HitKeepsOthers(w, m, w', t);
    case AddBan(_, _, _, _, _, _) => AddBanKeepsOthers(w, m, w', t);
    case Cleanup(_, _) => CleanupKeepsUnexpired(w, m, w', t);
    case Update(_, _, _, _) => UpdateKeepsUnexcepted(w, m, w', t);
    case Restart(_, _) => RestartKeepsUnexpired(w, m, w', t);
    case Reset(_) =>
    case Persist =>
    case Reconcile(_) =>
    case Idle =>
  }

  lemma CleanupKeepsUnexpired(w: World, m: Move, w': World, t: BanTarget)
    requires m.event.Cleanup? && CleanupMove(w, m.event, m.now, w')
    requires t in w.agg.bans.active && m.now < w.agg.bans.active[t].expiresAt
    ensures t in w'.agg.bans.active && w'.agg.bans.active[t] == w.agg.bans.active[t]
  {
    hide LiveScores, Saves, LiveReputation;
    assert t !in Expired(w.agg.bans, m.now);
  }

  lemma UpdateKeepsUnexcepted(w: World, m: Move, w': World, t: BanTarget)
    requires m.event.Update? && UpdateMove(w, m.event, w') && t in w.agg.bans.active && !Excepts(m.event, t)
    ensures t in w'.agg.bans.active && w'.agg.bans.active[t] == w.agg.bans.active[t]
  {
    hide UnexceptedScores, Saves, IsExcepted, Regroup, UnexceptedReputation, SentTo;
    assert t !in ExceptedTargets(w.agg.bans, m.event.config.exceptions);
  }

  lemma RestartKeepsUnexpired(w: World, m: Move, w': World, t: BanTarget)
    requires m.event.Restart? && Starts(w.config, w.disk, m.now, m.event.lifted, m.event.applied, w') && Sound(w, m.now)
    requires t in w.agg.bans.active && m.now < w.agg.bans.active[t].expiresAt
    ensures t in w'.agg.bans.active && w'.agg.bans.active[t] == w.agg.bans.active[t]
  {
    hide Sound, Starts;
    CrashRecovery(w, m.now, m.now, m.event.lifted, m.event.applied, w');
  }

  /** From an empty disk on, through crashes and restarts and whatever the backend refuses, a ban
      stays unchanged until its end or a new ban that replaces it. */
  lemma {:induction false} BanLasts(config: WorkerConfig, start: int, worlds: seq<World>, moves: seq<Move>,
                                    i: nat, j: nat, t: BanTarget)
    requires OrdinaryRun(config, start, worlds, moves) && i <= j < |worlds| && t in worlds[i].agg.bans.active
    requires forall k | i <= k < j ::
      moves[k].now < worlds[i].agg.bans.active[t].expiresAt && !Replaces(moves[k].event, t)
    ensures t in worlds[j].agg.bans.active && worlds[j].agg.bans.active[t] == worlds[i].agg.bans.active[t]
    decreases j - i
  {
    hide Sound, Step, Replaces, FirstStart, TablesAgree;
    if i < j {
      BanLasts(config, start, worlds, moves, i, j - 1, t);
      RestartsAreSound(config, start, worlds, moves);
      FirstStartIsEmpty(config, start, worlds[0]);
      RunAgrees(worlds, moves, j - 1);
      assert Step(worlds[j - 1], moves[j - 1], worlds[j]);
      assert Ordinary(worlds[j - 1], moves[j - 1], worlds[j]);
      StepKeepsBan(worlds[j - 1], moves[j - 1], worlds[j], t);
    }
  }

  /** A completed expiry pass lifts every ban whose end has come. */
  lemma CleanupLiftsDue(w: World, m: Move, w': World, t: BanTarget)
    requires Step(w, m, w') && m.event.Cleanup? && m.event.cleaned.Success?
    requires t in w.agg.bans.active && w.agg.bans.active[t].expiresAt <= m.now
    ensures t !in w'.agg.bans.active && t in m.event.cleaned.value
  {
    hide LiveScores, Saves, LiveReputation;
  }

  /** A manual ban runs for the time asked for: it is there, ending then, in every world until a
      move at that time, and the first completed expiry pass from then on lifts it. */
  lemma ManualBanRunsItsTime(config: WorkerConfig, start: int, worlds: seq<World>, moves: seq<Move>, i: nat, j: nat)
    requires OrdinaryRun(config, start, worlds, moves) && i < j < |worlds|
    requires moves[i].event.AddBan? && moves[i].event.added.Success?
    requires forall k | i < k < j ::
               moves[k].now < moves[i].now + moves[i].event.seconds && !Replaces(moves[k].event, moves[i].event.target)
    ensures
      var t, end := moves[i].event.target, moves[i].now + moves[i].event.seconds;
      && t in worlds[j].agg.bans.active && worlds[j].agg.bans.active[t].expiresAt == end
      && (j < |moves| && moves[j].event.Cleanup? && moves[j].event.cleaned.Success? && moves[j].now >= end ==>
            t !in worlds[j + 1].agg.bans.active)
  {
    hide Replaces;
    assert Step(worlds[i], moves[i], worlds[i + 1]);
    assert j < |moves| ==> Step(worlds[j], moves[j], worlds[j + 1]);
    hide Step, OrdinaryRun;
    var t := moves[i].event.target;
    ManualBanIsPlaced(worlds[i], moves[i], worlds[i + 1]);
    BanLasts(config, start, worlds, moves, i + 1, j, t);
    if j < |moves| && moves[j].event.Cleanup? && moves[j].event.cleaned.Success?
       && moves[j].now >= moves[i].now + moves[i].event.seconds {
      CleanupLiftsDue(worlds[j], moves[j], worlds[j + 1], t);
    }
  }

  lemma ManualBanIsPlaced(w: World, m: Move, w': World)
    requires Step(w, m, w') && m.event.AddBan? && m.event.added.Success?
    ensures
      var e := m.event;
      && 60 <= e.seconds <= w.config.aggregation.maxBan
      && e.target in w'.agg.bans.active && w'.agg.bans.active[e.target] == e.added.value
      && e.added.value.expiresAt == m.now + e.seconds && e.added.value.createdAt == m.now
  {
    hide AddManualStep, Saves;
    var e := m.event;
    ManualBanRecord(w.config.aggregation, w.agg, w.entries, e.target, e.seconds, e.reason, m.now, e.failed, e.forgotten,
                    w'.agg, w'.entries, Success(e.added.value));
  }

  /** A requested time is refused for itself exactly when it is under a minute or over the
      longest; then nothing changes. */
  lemma TimesAccepted(w: World, m: Move, w': World)
    requires Step(w, m, w') && m.event.AddBan?
    ensures m.event.added == Failure(BadDuration) <==>
              m.event.seconds < 60 || m.event.seconds > w.config.aggregation.maxBan
    ensures m.event.added == Failure(BadDuration) ==> w' == w
  {
    hide AddManualStep, Saves;
  }

  // ---------- Resets ----------

  /** The networks whose reputation a reset forgets. */
  predicate Forgets(target: BanTarget, net: IpNet) {
    match target
    case Ip(ip) => net == HostNetwork(ip)
    case Subnet(outer) => Contains(outer, net.addr)
  }

  /** After a reset a network's reputation stays forgotten until it is banned again. */
  lemma {:induction false} StaysForgotten(config: WorkerConfig, start: int, worlds: seq<World>, moves: seq<Move>,
                                          i: nat, j: nat, target: BanTarget, net: IpNet)
    requires OrdinaryRun(config, start, worlds, moves) && i < j < |worlds| == |moves| + 1
    requires moves[i].event == Reset(target) && Forgets(target, net)
    requires forall k | i < k < j :: net !in BannedNets(moves[k].event)
    ensures net !in worlds[j].agg.bans.reputation
    decreases j - i
  {
    hide Sound, BannedNets, Step, OrdinaryRun, BannedTargets, Forgets, Escalates;
    RunSteps(config, start, worlds, moves, j - 1);
    if j == i + 1 {
      ResetForgetsNow(worlds[i], moves[i], worlds[j], target, net);
    } else {
      StaysForgotten(config, start, worlds, moves, i, j - 1, target, net);
      RestartsAreSound(config, start, worlds, moves);
      StepEscalates(worlds[j - 1], moves[j - 1], worlds[j]);
      OnlyBannedAreRemembered(worlds[j - 1].agg.bans, worlds[j].agg.bans, moves[j - 1].event, net);
    }
  }

  lemma ResetForgetsNow(w: World, m: Move, w': World, target: BanTarget, net: IpNet)
    requires Step(w, m, w') && m.event == Reset(target) && Forgets(target, net)
    ensures net !in w'.agg.bans.reputation
  {
    hide Contains, Regroup, Saves;
  }

  lemma OnlyBannedAreRemembered(before: Bans, after: Bans, e: Event, net: IpNet)
    requires Escalates(before, after, BannedTargets(e)) && net !in before.reputation && net !in BannedNets(e)
    ensures net !in after.reputation
  {
    hide BannedTargets;
  }

  /** The next ban of a reset network is a first one again. */
  lemma FirstBanAfterReset(config: WorkerConfig, start: int, worlds: seq<World>, moves: seq<Move>, i: nat, j: nat,
                           target: BanTarget, t: BanTarget)
    requires OrdinaryRun(config, start, worlds, moves) && i < j < |moves|
    requires moves[i].event == Reset(target) && Forgets(target, NetworkOf(t))
    requires t in BannedTargets(moves[j].event) && forall k | i < k < j :: NetworkOf(t) !in BannedNets(moves[k].event)
    ensures t in worlds[j + 1].agg.bans.active && worlds[j + 1].agg.bans.active[t].offenseCount == 1
  {
    hide OrdinaryRun, BannedNets, BannedTargets, Forgets;
    RunSteps(config, start, worlds, moves, j);
    StaysForgotten(config, start, worlds, moves, i, j, target, NetworkOf(t));
    NotCounted(worlds, moves, j, NetworkOf(t));
    NthBan(config, start, worlds, moves, j, t);
  }
}
