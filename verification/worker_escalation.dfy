/** Escalation over whole runs: the n-th ban of a network since its reputation was last
    forgotten carries offense count n, and no expiry pass forgets a network still banned. */
module WorkerEscalation {
  import opened Wrappers
  import opened Networks
  import opened Counters
  import opened AggregateState
  import opened AggregateSteps
  import opened AggregateInvariants
  import opened AggregateBans
  import opened Persistence
  import opened WorkerSteps
  import opened WorkerRuns
  import opened WorkerRecovery

  function ReportedTargets(r: Result<RecordResult, BackendError>): set<BanTarget> {
    if r.Failure? then {} else
      set t | t in r.value.transitions :: match t case Banned(target) => target case Promoted(net, _) => Subnet(net)
  }

  /** The targets an event banned. */
  function BannedTargets(e: Event): set<BanTarget> {
    match e
    case Hit(_, _, _, _, recorded) => ReportedTargets(recorded)
    case AddBan(target, _, _, _, _, added) => if added.Success? then {target} else {}
    case _ => {}
  }

  function BannedNets(e: Event): set<IpNet> {
    set t | t in BannedTargets(e) :: NetworkOf(t)
  }

  /** How often a network was banned in the first `i` moves since its reputation was last missing. */
  ghost function BanCount(worlds: seq<World>, moves: seq<Move>, i: nat, net: IpNet): nat
    requires i < |worlds| && |worlds| == |moves| + 1
  {
    if i == 0 || net !in worlds[i].agg.bans.reputation then 0
    else BanCount(worlds, moves, i - 1, net) + if net in BannedNets(moves[i - 1].event) then 1 else 0
  }

  function Saturated(n: nat): u32 {
    if n <= U32_MAX then n else U32_MAX
  }

  /** The reputation table and the new bans follow the offense counts of the tables before. */
  ghost predicate Escalates(before: Bans, after: Bans, banned: set<BanTarget>) {
    && (forall t | t in banned ::
          t in after.active && after.active[t].offenseCount == OffenseCount(before, NetworkOf(t)))
    && (forall net | net in after.reputation ::
          if exists t | t in banned :: NetworkOf(t) == net then
            after.reputation[net].offenseCount == OffenseCount(before, net)
          else
            net in before.reputation && after.reputation[net].offenseCount == before.reputation[net].offenseCount)
  }

  lemma PlacedEscalates(cfg: Config, bans: Bans, target: BanTarget, ban: ActiveBan, forgotten: set<IpNet>)
    requires ban.network == NetworkOf(target) && ban.offenseCount == OffenseCount(bans, ban.network)
    ensures Escalates(bans, Placed(cfg, bans, target, ban, forgotten), {target})
  {
    hide OffenseCount, CoveredIps;
    var after := Placed(cfg, bans, target, ban, forgotten);
    assert target in {target};
  }

  lemma SubsetEscalates(before: Bans, after: Bans)
    requires forall net | net in after.reputation ::
               net in before.reputation && after.reputation[net].offenseCount == before.reputation[net].offenseCount
    ensures Escalates(before, after, {})
  {
    hide OffenseCount;
  }

  lemma RecordEscalates(cfg: Config, s: AggState, entries: set<BanTarget>, ip: IpAddr, weight: u64, rule: string,
                        now: int, gone: Evicted, s': AggState, entries': set<BanTarget>,
                        r: Result<RecordResult, BackendError>)
    requires RecordStep(cfg, s, entries, ip, weight, rule, now, gone, s', entries', r)
    ensures Escalates(s.bans, s'.bans, ReportedTargets(r))
  {
    var attempt := RecordAttempts(cfg, s, entries, ip, weight, rule, now, gone, s', entries', r);
    RecordTargets(cfg, s, entries, ip, weight, rule, now, gone, s', entries', r);
    hide RecordStep, SubnetFor, AttemptOf, Placed, TrimChoice, CoveredIps, OffenseCount, Escalates, ReportedTargets;
    if attempt.Some? && r.Success? {
      PlacedEscalates(cfg, s.bans, attempt.value.target, attempt.value.ban, gone.reputation);
    } else {
      SubsetEscalates(s.bans, s'.bans);
    }
  }

  lemma RecordTargets(cfg: Config, s: AggState, entries: set<BanTarget>, ip: IpAddr, weight: u64, rule: string,
                      now: int, gone: Evicted, s': AggState, entries': set<BanTarget>,
                      r: Result<RecordResult, BackendError>)
    requires RecordStep(cfg, s, entries, ip, weight, rule, now, gone, s', entries', r)
    ensures
      var attempt := AttemptOf(cfg, s, s', ip, rule, now);
      ReportedTargets(r) == if attempt.Some? && r.Success? then {attempt.value.target} else {}
  {
    hide RoomChoice, RoomFor, Added, Crossed, WithoutCrossing, CrossingChoice, ShouldPromote, PlaceStep, SubnetFor;
    hide CoveredBySubnet;
    if r.Success? && r.value.transitions != [] {
      assert r.value.transitions[0] in r.value.transitions;
    }
  }

  lemma ManualEscalates(cfg: Config, s: AggState, entries: set<BanTarget>, target: BanTarget, duration: int,
                        reason: string, now: int, failed: set<IpAddr>, forgotten: set<IpNet>,
                        s': AggState, entries': set<BanTarget>, r: Result<ActiveBan, BackendError>)
    requires AddManualStep(cfg, s, entries, target, duration, reason, now, failed, forgotten, s', entries', r)
    ensures Escalates(s.bans, s'.bans, if r.Success? then {target} else {})
  {
    hide Placed, TrimChoice, CoveredIps, CoveredBySubnet, OffenseCount, Escalates;
    if r.Success? {
      PlacedEscalates(cfg, s.bans, target, ManualBan(cfg, s.bans, target, duration, reason, now), forgotten);
    } else {
      SubsetEscalates(s.bans, s'.bans);
    }
  }

  lemma LiftingEscalates(cfg: Config, s: AggState, s': AggState, now: int, gone: set<BanTarget>,
                         exceptions: seq<IpNet>, target: BanTarget)
    requires s'.bans == WithoutTargets(s.bans, gone) || s'.bans == CleanedUp(cfg, s, now).bans
          || s'.bans == Cleared(cfg, s, exceptions).bans || s'.bans == ResetDone(cfg, s, target).bans
    ensures Escalates(s.bans, s'.bans, {})
  {
    hide Regroup, IsCovered, IsException, LiveScores, UnexceptedScores, Contains, Escalates;
    SubsetEscalates(s.bans, s'.bans);
  }

  lemma UpdateEscalates(w: World, e: Event, w': World)
    requires e.Update? && UpdateMove(w, e, w')
    ensures Escalates(w.agg.bans, w'.agg.bans, {})
  {
    hide Escalates, Cleared, SentTo, Saves, WithoutTargets, ExceptedTargets, Regroup;
    if e.config.ipset == w.config.ipset && e.config.firewall == w.config.firewall && e.reconciled {
      LiftingEscalates(w.config.aggregation, w.agg, w'.agg, 0, e.lifted, e.config.exceptions, Ip(AnyIp()));
    } else {
      SubsetEscalates(w.agg.bans, w'.agg.bans);
    }
  }

  function AnyIp(): IpAddr {
    Address(V4, seq(32, _ => false))
  }

  lemma RestartEscalates(w: World, m: Move, w': World)
    requires m.event.Restart? && Sound(w, m.now) && Step(w, m, w')
    ensures Escalates(w.agg.bans, w'.agg.bans, {})
  {
    hide Sound, Starts, Expired, WithoutTargets, Escalates;
    StartOf(w, m, w');
    hide Step;
    CrashRecovery(w, m.now, m.now, m.event.lifted, m.event.applied, w');
    SubsetEscalates(w.agg.bans, w'.agg.bans);
  }

  lemma StartOf(w: World, m: Move, w': World)
    requires m.event.Restart? && Step(w, m, w')
    ensures Starts(w.config, w.disk, m.now, m.event.lifted, m.event.applied, w')
  {
    hide Starts;
  }

  lemma StepEscalates(w: World, m: Move, w': World)
    requires Step(w, m, w') && (m.event.Restart? ==> Sound(w, m.now))
    ensures Escalates(w.agg.bans, w'.agg.bans, BannedTargets(m.event))
  {
    var cfg, e := w.config.aggregation, m.event;
    hide RecordStep, AddManualStep, UpdateMove, Starts, Saves, ResetDone, IsException, Sound, Escalates;
    hide CleanedUp, Expired, WithoutTargets;
    match e
    case Hit(ip, weight, rule, evicted, recorded) =>
      if IsException(ip, w.config.exceptions) {
        assert ReportedTargets(recorded) == {};
        SubsetEscalates(w.agg.bans, w'.agg.bans);
      } else {
        RecordEscalates(cfg, w.agg, w.entries, ip, weight, rule, m.now, evicted, w'.agg, w'.entries, recorded);
      }
    case Cleanup(lifted, cleaned) =>
      LiftingEscalates(cfg, w.agg, w'.agg, m.now, lifted, [], Ip(AnyIp()));
    case AddBan(target, seconds, reason, failed, forgotten, added) =>
      if GoodDuration(w.config, seconds) {
        ManualEscalates(cfg, w.agg, w.entries, target, seconds, reason, m.now, failed, forgotten, w'.agg, w'.entries,
                        match added case Success(ban) => Success(ban) case Failure(f) => Failure(f.error));
      } else {
        SubsetEscalates(w.agg.bans, w'.agg.bans);
      }
    case Reset(target) => LiftingEscalates(cfg, w.agg, w'.agg, m.now, {}, [], target);
    case Update(_, _, _, _) => UpdateEscalates(w, e, w');
    case Restart(_, _) => RestartEscalates(w, m, w');
    case Persist => SubsetEscalates(w.agg.bans, w'.agg.bans);
    case Reconcile(_) => SubsetEscalates(w.agg.bans, w'.agg.bans);
    case Idle => SubsetEscalates(w.agg.bans, w'.agg.bans);
  }

  // ---------- Whole runs ----------

  /** With policy updates and failing saves too, as long as no restart loses unsaved bans:
      remembered offense counts are the numbers of bans since the network was last forgotten. */
  lemma {:induction false} CountsWhileSound(worlds: seq<World>, moves: seq<Move>, i: nat, net: IpNet)
    requires IsRun(worlds, moves) && i < |worlds| && worlds[0].agg.bans.reputation == map[]
    requires forall j | 0 <= j < |moves| && moves[j].event.Restart? :: Sound(worlds[j], moves[j].now)
    ensures net in worlds[i].agg.bans.reputation ==>
              worlds[i].agg.bans.reputation[net].offenseCount == Saturated(BanCount(worlds, moves, i, net))
  {
    hide Sound, Step, Escalates, BannedNets, BannedTargets, BanCount, Saturated;
    NothingCounted(worlds, moves, net);
    if i > 0 {
      CountsWhileSound(worlds, moves, i - 1, net);
      assert Step(worlds[i - 1], moves[i - 1], worlds[i]);
      StepEscalates(worlds[i - 1], moves[i - 1], worlds[i]);
      NotCounted(worlds, moves, i - 1, net);
      CountedStep(worlds, moves, i, net);
    }
  }

  lemma NothingCounted(worlds: seq<World>, moves: seq<Move>, net: IpNet)
    requires |worlds| == |moves| + 1
    ensures BanCount(worlds, moves, 0, net) == 0
  {
  }

  lemma CountedStep(worlds: seq<World>, moves: seq<Move>, i: nat, net: IpNet)
    requires 0 < i < |worlds| == |moves| + 1
    requires
      var before := worlds[i - 1].agg.bans;
      && Escalates(before, worlds[i].agg.bans, BannedTargets(moves[i - 1].event))
      && if net in before.reputation then
           before.reputation[net].offenseCount == Saturated(BanCount(worlds, moves, i - 1, net))
         else BanCount(worlds, moves, i - 1, net) == 0
    ensures net in worlds[i].agg.bans.reputation ==>
              worlds[i].agg.bans.reputation[net].offenseCount == Saturated(BanCount(worlds, moves, i, net))
  {
    var banned := BannedTargets(moves[i - 1].event);
    hide BannedTargets;
    assert net in BannedNets(moves[i - 1].event) <==> exists t | t in banned :: NetworkOf(t) == net;
  }

  lemma NotCounted(worlds: seq<World>, moves: seq<Move>, i: nat, net: IpNet)
    requires i < |worlds| && |worlds| == |moves| + 1
    ensures net !in worlds[i].agg.bans.reputation ==> BanCount(worlds, moves, i, net) == 0
  {
  }

  /** A ban placed by move `i` is its network's n-th since the network was last forgotten, and
      carries offense count n, saturating at the largest u32. */
  lemma NthBanWhileSound(worlds: seq<World>, moves: seq<Move>, i: nat, t: BanTarget)
    requires IsRun(worlds, moves) && i < |moves| && worlds[0].agg.bans.reputation == map[]
    requires forall j | 0 <= j < |moves| && moves[j].event.Restart? :: Sound(worlds[j], moves[j].now)
    requires t in BannedTargets(moves[i].event)
    ensures t in worlds[i + 1].agg.bans.active
    ensures worlds[i + 1].agg.bans.active[t].offenseCount
         == Saturated(BanCount(worlds, moves, i, NetworkOf(t)) + 1)
  {
    hide Sound, BannedTargets, Step, Escalates, BanCount;
    CountsWhileSound(worlds, moves, i, NetworkOf(t));
    NotCounted(worlds, moves, i, NetworkOf(t));
    StepEscalates(worlds[i], moves[i], worlds[i + 1]);
    NextOffense(worlds[i].agg.bans, worlds[i + 1].agg.bans, BannedTargets(moves[i].event), t,
                BanCount(worlds, moves, i, NetworkOf(t)));
  }

  lemma NextOffense(before: Bans, after: Bans, banned: set<BanTarget>, t: BanTarget, n: nat)
    requires Escalates(before, after, banned) && t in banned
    requires if NetworkOf(t) in before.reputation then before.reputation[NetworkOf(t)].offenseCount == Saturated(n)
             else n == 0
    ensures t in after.active && after.active[t].offenseCount == Saturated(n + 1)
  {
  }

  // ---------- Reputations outlive bans ----------

  lemma LiftingOutlives(cfg: Config, s: AggState, s': AggState, now: int, gone: set<BanTarget>,
                        exceptions: seq<IpNet>, target: BanTarget)
    requires ReputationOutlives(s.bans)
    requires s'.bans == WithoutTargets(s.bans, gone) || s'.bans == CleanedUp(cfg, s, now).bans
          || s'.bans == Cleared(cfg, s, exceptions).bans || s'.bans == ResetDone(cfg, s, target).bans
    ensures ReputationOutlives(s'.bans)
  {
    hide Regroup, IsCovered, IsException, LiveScores, UnexceptedScores, Contains;
  }

  lemma UpdateOutlives(w: World, e: Event, w': World)
    requires e.Update? && UpdateMove(w, e, w') && ReputationOutlives(w.agg.bans)
    ensures ReputationOutlives(w'.agg.bans)
  {
    hide ReputationOutlives, Cleared, SentTo, Saves, WithoutTargets, ExceptedTargets, Regroup;
    if e.config.ipset == w.config.ipset && e.config.firewall == w.config.firewall && e.reconciled {
      LiftingOutlives(w.config.aggregation, w.agg, w'.agg, 0, e.lifted, e.config.exceptions, Ip(AnyIp()));
    }
  }

  lemma RestartOutlives(w: World, m: Move, w': World)
    requires m.event.Restart? && Sound(w, m.now) && Step(w, m, w') && ReputationOutlives(w.agg.bans)
    ensures ReputationOutlives(w'.agg.bans)
  {
    hide Sound, Starts, ReputationOutlives, Expired, WithoutTargets, LiveScores;
    StartOf(w, m, w');
    hide Step;
    CrashRecovery(w, m.now, m.now, m.event.lifted, m.event.applied, w');
    CleanedIsLive(w.config.aggregation, w.agg, m.now);
    LiftingOutlives(w.config.aggregation, w.agg, w'.agg, m.now, {}, [], Ip(AnyIp()));
  }

  lemma StepOutlives(w: World, m: Move, w': World)
    requires Step(w, m, w') && TablesAgree(w) && TunedDurations(w.config.aggregation)
    requires m.event.Restart? ==> Sound(w, m.now)
    requires ReputationOutlives(w.agg.bans)
    ensures ReputationOutlives(w'.agg.bans)
  {
    var cfg, e := w.config.aggregation, m.event;
    hide RecordStep, AddManualStep, UpdateMove, Starts, Saves, ResetDone, IsException, Sound, ReputationOutlives;
    hide CleanedUp, Expired, WithoutTargets, BansAgree, ScoresAgree;
    match e
    case Hit(ip, weight, rule, evicted, recorded) =>
      if !IsException(ip, w.config.exceptions) {
        RecordOutlives(cfg, w.agg, w.entries, ip, weight, rule, m.now, evicted, w'.agg, w'.entries, recorded);
      }
    case Cleanup(lifted, cleaned) =>
      LiftingOutlives(cfg, w.agg, w'.agg, m.now, lifted, [], Ip(AnyIp()));
    case AddBan(target, seconds, reason, failed, forgotten, added) =>
      if GoodDuration(w.config, seconds) {
        AddManualOutlives(cfg, w.agg, w.entries, target, seconds, reason, m.now, failed, forgotten, w'.agg, w'.entries,
                          match added case Success(ban) => Success(ban) case Failure(f) => Failure(f.error));
      }
    case Reset(target) => LiftingOutlives(cfg, w.agg, w'.agg, m.now, {}, [], target);
    case Update(_, _, _, _) => UpdateOutlives(w, e, w');
    case Restart(_, _) => RestartOutlives(w, m, w');
    case Persist =>
    case Reconcile(_) =>
    case Idle =>
  }

  /** With tuned durations, in every world of a run each remembered reputation lasts longer than
      its network's active ban. */
  lemma {:induction false} OutlivesWhileSound(worlds: seq<World>, moves: seq<Move>, i: nat)
    requires IsRun(worlds, moves) && i < |worlds| && TablesAgree(worlds[0]) && ReputationOutlives(worlds[0].agg.bans)
    requires forall j | 0 <= j < |worlds| :: TunedDurations(worlds[j].config.aggregation)
    requires forall j | 0 <= j < |moves| && moves[j].event.Restart? :: Sound(worlds[j], moves[j].now)
    ensures ReputationOutlives(worlds[i].agg.bans)
  {
    hide Sound, ReputationOutlives, TablesAgree, Step;
    if i > 0 {
      OutlivesWhileSound(worlds, moves, i - 1);
      RunAgrees(worlds, moves, i - 1);
      StepOutlives(worlds[i - 1], moves[i - 1], worlds[i]);
    }
  }

  /** So an expiry pass in any world of a run forgets no network that stays banned. */
  lemma CleanupForgetsNoneWhileSound(worlds: seq<World>, moves: seq<Move>, i: nat, t: BanTarget)
    requires IsRun(worlds, moves) && i < |moves| && TablesAgree(worlds[0]) && ReputationOutlives(worlds[0].agg.bans)
    requires forall j | 0 <= j < |worlds| :: TunedDurations(worlds[j].config.aggregation)
    requires forall j | 0 <= j < |moves| && moves[j].event.Restart? :: Sound(worlds[j], moves[j].now)
    requires moves[i].event.Cleanup? && moves[i].event.cleaned.Success?
    requires t in worlds[i + 1].agg.bans.active && NetworkOf(t) in worlds[i].agg.bans.reputation
    ensures NetworkOf(t) in worlds[i + 1].agg.bans.reputation
  {
    OutlivesWhileSound(worlds, moves, i);
    RunAgrees(worlds, moves, i);
    hide Sound, ReputationOutlives, CleanedUp, BansAgree, ScoresAgree;
    assert Step(worlds[i], moves[i], worlds[i + 1]);
    CleanupKeepsBannedReputation(worlds[i].config.aggregation, worlds[i].agg, moves[i].now, t);
  }

  // ---------- Runs from the first start ----------

  lemma SoundLater(w: World, now: int, later: int)
    requires Sound(w, now) && now <= later
    ensures Sound(w, later)
  {
    hide TablesAgree, CoreCaps, ExceptionsHold, HostFree, LiveBans, Loaded;
  }

  /** In a run that crash recovery covers, every restart finds a file that rebuilds the bans. */
  lemma RestartsAreSound(config: WorkerConfig, start: int, worlds: seq<World>, moves: seq<Move>)
    requires OrdinaryRun(config, start, worlds, moves)
    ensures forall j | 0 <= j < |moves| :: Sound(worlds[j], moves[j].now)
  {
    hide Sound, Step, FirstStart, Ordinary;
    forall j | 0 <= j < |moves| ensures Sound(worlds[j], moves[j].now) {
      RunRecovers(config, start, worlds, moves, j);
      SoundLater(worlds[j], ClockAt(start, moves, j), moves[j].now);
    }
  }

  lemma FirstStartIsEmpty(config: WorkerConfig, now: int, w: World)
    requires FirstStart(config, now, w)
    ensures w.agg.bans == EMPTY.bans && w.config == config && TablesAgree(w)
  {
    var lifted :| Starts(config, None, now, lifted, Success(lifted), w);
    StartAgrees(config, None, now, lifted, Success(lifted), w);
    var loaded := Loaded(config, None, now, w.agg.evictions);
    EmptyPass(config.aggregation, loaded, config.exceptions);
    hide TablesAgree, Saves, IsExcepted, Cleared;
  }

  lemma {:induction false} ConfigStays(config: WorkerConfig, start: int, worlds: seq<World>, moves: seq<Move>, i: nat)
    requires OrdinaryRun(config, start, worlds, moves) && i < |worlds|
    ensures worlds[i].config == config
  {
    hide FirstStart, Saves, RecordStep, CleanupStep, AddManualStep, ApplyExceptionsStep, ResetDone, Loaded, SentTo;
    if i == 0 {
      FirstStartIsEmpty(config, start, worlds[0]);
    } else {
      ConfigStays(config, start, worlds, moves, i - 1);
      assert Step(worlds[i - 1], moves[i - 1], worlds[i]);
      assert Ordinary(worlds[i - 1], moves[i - 1], worlds[i]);
    }
  }

  /** From an empty disk that works, through crashes and restarts and whatever the backend
      refuses: remembered offense counts are the numbers of bans since last forgotten. */
  lemma RunCounts(config: WorkerConfig, start: int, worlds: seq<World>, moves: seq<Move>, i: nat, net: IpNet)
    requires OrdinaryRun(config, start, worlds, moves) && i < |worlds|
    ensures net in worlds[i].agg.bans.reputation ==>
              worlds[i].agg.bans.reputation[net].offenseCount == Saturated(BanCount(worlds, moves, i, net))
  {
    hide Sound, Step, FirstStart, Ordinary, BanCount;
    RestartsAreSound(config, start, worlds, moves);
    FirstStartIsEmpty(config, start, worlds[0]);
    CountsWhileSound(worlds, moves, i, net);
  }

  /** In such runs the n-th ban of a network since its reputation was last forgotten carries
      offense count n, saturating at the largest u32. */
  lemma NthBan(config: WorkerConfig, start: int, worlds: seq<World>, moves: seq<Move>, i: nat, t: BanTarget)
    requires OrdinaryRun(config, start, worlds, moves) && i < |moves| && t in BannedTargets(moves[i].event)
    ensures t in worlds[i + 1].agg.bans.active
    ensures worlds[i + 1].agg.bans.active[t].offenseCount
         == Saturated(BanCount(worlds, moves, i, NetworkOf(t)) + 1)
  {
    hide Sound, Step, FirstStart, Ordinary, BanCount, BannedTargets;
    RestartsAreSound(config, start, worlds, moves);
    FirstStartIsEmpty(config, start, worlds[0]);
    NthBanWhileSound(worlds, moves, i, t);
  }

  /** In such runs, under tuned durations, every remembered reputation outlasts its network's ban. */
  lemma RunOutlives(config: WorkerConfig, start: int, worlds: seq<World>, moves: seq<Move>, i: nat)
    requires OrdinaryRun(config, start, worlds, moves) && i < |worlds| && TunedDurations(config.aggregation)
    ensures ReputationOutlives(worlds[i].agg.bans)
  {
    TunedRun(config, start, worlds, moves);
    hide Sound, Step, FirstStart, Ordinary, ReputationOutlives, OrdinaryRun;
    OutlivesWhileSound(worlds, moves, i);
  }

  /** So no expiry pass in such a run forgets a network that stays banned. */
  lemma CleanupForgetsNoBannedNetwork(config: WorkerConfig, start: int, worlds: seq<World>, moves: seq<Move>, i: nat,
                                      t: BanTarget)
    requires OrdinaryRun(config, start, worlds, moves) && i < |moves| && TunedDurations(config.aggregation)
    requires moves[i].event.Cleanup? && moves[i].event.cleaned.Success?
    requires t in worlds[i + 1].agg.bans.active && NetworkOf(t) in worlds[i].agg.bans.reputation
    ensures NetworkOf(t) in worlds[i + 1].agg.bans.reputation
  {
    TunedRun(config, start, worlds, moves);
    hide Sound, Step, FirstStart, Ordinary, ReputationOutlives, OrdinaryRun;
    CleanupForgetsNoneWhileSound(worlds, moves, i, t);
  }

  lemma TunedRun(config: WorkerConfig, start: int, worlds: seq<World>, moves: seq<Move>)
    requires OrdinaryRun(config, start, worlds, moves) && TunedDurations(config.aggregation)
    ensures IsRun(worlds, moves) && TablesAgree(worlds[0]) && ReputationOutlives(worlds[0].agg.bans)
    ensures forall j | 0 <= j < |worlds| :: TunedDurations(worlds[j].config.aggregation)
    ensures forall j | 0 <= j < |moves| && moves[j].event.Restart? :: Sound(worlds[j], moves[j].now)
  {
    hide Sound, Step, FirstStart, Ordinary, TablesAgree, TunedDurations;
    RestartsAreSound(config, start, worlds, moves);
    FirstStartIsEmpty(config, start, worlds[0]);
    forall j | 0 <= j < |worlds| ensures worlds[j].config == config {
      ConfigStays(config, start, worlds, moves, j);
    }
  }
}
