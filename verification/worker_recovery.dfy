/** Bans and reputation survive a crash: in every reachable world the state file holds what a
    restart needs to rebuild them, minus only what expires meanwhile. */
module WorkerRecovery {
  import opened Wrappers
  import opened Networks
  import opened Counters
  import opened AggregateState
  import opened AggregateSteps
  import opened AggregateInvariants
  import opened AggregateBans
  import opened AggregateCaps
  import opened Exceptions
  import opened Persistence
  import opened WorkerSteps
  import opened WorkerRuns

  /** The ban tables without what has expired by `t`. */
  function LiveBans(bans: Bans, t: int): Bans {
    WithoutTargets(bans, Expired(bans, t)).(reputation := LiveReputation(bans.reputation, t))
  }

  /** At any time from `now` on, loading the file gives the unexpired bans and reputations. */
  ghost predicate Recoverable(w: World, now: int) {
    forall t | t >= now :: Loaded(w.config, w.disk, t, 0).bans == LiveBans(w.agg.bans, t)
  }

  ghost predicate HostFree(bans: Bans) {
    forall t | t in bans.active && t.Subnet? :: !IsHostNetwork(t.net)
  }

  /** The configuration saves to a file and promotes to subnets, not to single addresses. */
  predicate Recovers(config: WorkerConfig) {
    config.persists && config.aggregation.ipv4Prefix < 32 && config.aggregation.ipv6Prefix < 128
  }

  /** Every save that was attempted succeeded. */
  predicate DiskWorks(m: Move, w': World) {
    match m.event
    case Hit(_, _, _, _, recorded) => recorded.Success? && m.due ==> !w'.dirty
    case Cleanup(_, cleaned) => cleaned.Success? ==> !w'.dirty
    case AddBan(_, _, _, _, _, added) => added.Success? ==> !w'.dirty
    case Reset(_) => !w'.dirty
    case Persist => m.due ==> !w'.dirty
    case _ => true
  }

  /** A move of a run under one configuration, with manual bans as the firewall passes them on. */
  predicate Ordinary(w: World, m: Move, w': World) {
    && DiskWorks(m, w') && Guarded(w, m) && !m.event.Update?
    && (m.event.AddBan? && m.event.target.Subnet? ==> !IsHostNetwork(m.event.target.net))
  }

  ghost predicate Sound(w: World, now: int) {
    && Recovers(w.config) && TablesAgree(w) && CoreCaps(w) && ExceptionsHold(w)
    && HostFree(w.agg.bans) && Recoverable(w, now)
  }

  // ---------- Live bans ----------

  lemma LiveTwice(bans: Bans, s: int, t: int)
    requires s <= t
    ensures LiveBans(LiveBans(bans, s), t) == LiveBans(bans, t)
  {
    var first := LiveBans(bans, s);
    assert Expired(bans, s) <= Expired(bans, t);
    assert first.active - Expired(first, t) == bans.active - Expired(bans, t);
  }

  lemma PartExpiredLive(bans: Bans, gone: set<BanTarget>, s: int, t: int)
    requires s <= t && gone <= Expired(bans, s)
    ensures LiveBans(WithoutTargets(bans, gone), t) == LiveBans(bans, t)
  {
    var first := WithoutTargets(bans, gone);
    assert Expired(bans, s) <= Expired(bans, t);
    assert first.active - Expired(first, t) == bans.active - Expired(bans, t);
  }

  lemma CleanedIsLive(cfg: Config, s: AggState, now: int)
    ensures CleanedUp(cfg, s, now).bans == LiveBans(s.bans, now)
  {
  }

  lemma LiveKeeps(bans: Bans, t: int, exceptions: seq<IpNet>)
    ensures BansUnexcepted(bans, exceptions) ==> BansUnexcepted(LiveBans(bans, t), exceptions)
    ensures HostFree(bans) ==> HostFree(LiveBans(bans, t))
  {
    hide IsExcepted, IsCovered, IsHostNetwork;
  }

  // ---------- What a save and a start do ----------

  lemma SavedIsRecoverable(w: World, now: int)
    requires Recovers(w.config) && TablesAgree(w) && CoreCaps(w) && HostFree(w.agg.bans)
    requires w.disk.Some? && Saves(w.agg, w.disk.value)
    ensures Recoverable(w, now)
  {
    var cfg := w.config.aggregation;
    forall t | t >= now ensures Loaded(w.config, w.disk, t, 0).bans == LiveBans(w.agg.bans, t) {
      HostFreeNow(w.agg.bans, t);
      FewerBans(cfg, w.agg, t);
      RestoredBansAreLive(cfg, w.agg, w.disk.value, t);
      CleanedIsLive(cfg, w.agg, t);
      LoadedBans(w.config, w.disk.value, t);
    }
  }

  lemma FewerBans(cfg: Config, s: AggState, now: int)
    requires BansWithinCaps(cfg, s.bans)
    ensures BansWithinCaps(cfg, CleanedUp(cfg, s, now).bans)
  {
    var after := CleanedUp(cfg, s, now).bans;
    FewerKeys(after.active, s.bans.active);
    FewerKeys(after.reputation, s.bans.reputation);
  }

  lemma HostFreeNow(bans: Bans, now: int)
    requires HostFree(bans)
    ensures NoHostSubnet(bans, now)
  {
  }

  lemma LoadedBans(config: WorkerConfig, file: PersistentState, t: int)
    requires config.persists && file.schemaVersion == SCHEMA_VERSION
    ensures Loaded(config, Some(file), t, 0).bans == RestoredBans(config.aggregation, EMPTY.bans, file, t)
  {
    hide RestoredBans, RestoredScores, AddRules;
  }

  lemma LoadedEvictions(config: WorkerConfig, disk: Option<PersistentState>, t: int, evictions: u64)
    ensures Loaded(config, disk, t, evictions).bans == Loaded(config, disk, t, 0).bans
  {
    hide Restored;
  }

  /** An exception pass over bans that respect the exceptions changes none of them, so no
      backend call can stop it. */
  lemma PassChangesNothing(cfg: Config, s: AggState, entries: set<BanTarget>, exceptions: seq<IpNet>,
                           lifted: set<BanTarget>, s': AggState, entries': set<BanTarget>,
                           r: Result<set<BanTarget>, BackendError>)
    requires BansUnexcepted(s.bans, exceptions) && BansAgree(s.bans)
    requires ApplyExceptionsStep(cfg, s, entries, exceptions, lifted, s', entries', r)
    ensures r.Success? && s'.bans == s.bans
  {
    hide IsExcepted, IsCovered, UnexceptedScores, CoveredBySubnet;
    assert ExceptedTargets(s.bans, exceptions) == {};
    assert s.bans.active - {} == s.bans.active;
    AllTargetsKept(s.bans);
  }

  lemma AllTargetsKept(bans: Bans)
    ensures WithoutTargets(bans, {}) == bans
  {
    assert bans.active - {} == bans.active;
  }

  /** The restart after a crash at any moment: the bans and reputations are those of the lost
      worker, minus what has expired since. */
  lemma CrashRecovery(w: World, now: int, t: int, lifted: set<BanTarget>,
                      applied: Result<set<BanTarget>, BackendError>, w': World)
    requires Sound(w, now) && now <= t && Starts(w.config, w.disk, t, lifted, applied, w')
    ensures applied.Success? && w'.agg.bans == LiveBans(w.agg.bans, t)
  {
    var cfg := w.config.aggregation;
    var loaded := Loaded(w.config, w.disk, t, w'.agg.evictions);
    LoadedEvictions(w.config, w.disk, t, w'.agg.evictions);
    LiveKeeps(w.agg.bans, t, w.config.exceptions);
    LoadedAgrees(w.config, w.disk, t, w'.agg.evictions);
    hide Loaded, LiveBans, BansUnexcepted, ApplyExceptionsStep, BansAgree, ScoresAgree, HostFree, SentTo, Saves;
    PassChangesNothing(cfg, loaded, SentTo(loaded, w.config.exceptions), w.config.exceptions, lifted,
                       w'.agg, w'.entries, applied);
  }

  // ---------- Every move ----------

  lemma PlacedHostFree(cfg: Config, bans: Bans, target: BanTarget, ban: ActiveBan, forgotten: set<IpNet>)
    requires HostFree(bans) && (target.Subnet? ==> !IsHostNetwork(target.net))
    ensures HostFree(Placed(cfg, bans, target, ban, forgotten))
  {
    hide IsHostNetwork, CoveredIps;
  }

  lemma RecordHostFree(cfg: Config, s: AggState, entries: set<BanTarget>, ip: IpAddr, weight: u64, rule: string,
                       now: int, gone: Evicted, s': AggState, entries': set<BanTarget>,
                       r: Result<RecordResult, BackendError>)
    requires HostFree(s.bans) && cfg.ipv4Prefix < 32 && cfg.ipv6Prefix < 128
    requires RecordStep(cfg, s, entries, ip, weight, rule, now, gone, s', entries', r)
    ensures HostFree(s'.bans)
    ensures r.Failure? || r.value.transitions == [] ==> s'.bans == s.bans
  {
    assert !IsHostNetwork(SubnetFor(cfg, ip));
    var attempt := RecordAttempts(cfg, s, entries, ip, weight, rule, now, gone, s', entries', r);
    RecordReports(cfg, s, entries, ip, weight, rule, now, gone, s', entries', r);
    hide RecordStep, SubnetFor, AttemptOf, Placed, TrimChoice, CoveredIps, HostFree, IsHostNetwork;
    if attempt.Some? && r.Success? {
      PlacedHostFree(cfg, s.bans, attempt.value.target, attempt.value.ban, gone.reputation);
    }
  }

  lemma RecordReports(cfg: Config, s: AggState, entries: set<BanTarget>, ip: IpAddr, weight: u64, rule: string,
                      now: int, gone: Evicted, s': AggState, entries': set<BanTarget>,
                      r: Result<RecordResult, BackendError>)
    requires RecordStep(cfg, s, entries, ip, weight, rule, now, gone, s', entries', r)
    ensures r.Failure? || r.value.transitions == [] ==> s'.bans == s.bans
  {
    hide RoomChoice, RoomFor, Added, Crossed, WithoutCrossing, CrossingChoice, ShouldPromote, Placed, TrimChoice;
    hide CoveredIps, SubnetFor;
  }

  lemma CleanupHostFree(cfg: Config, s: AggState, entries: set<BanTarget>, now: int, lifted: set<BanTarget>,
                        s': AggState, entries': set<BanTarget>, r: Result<set<BanTarget>, BackendError>, t: int)
    requires CleanupStep(cfg, s, entries, now, lifted, s', entries', r) && now <= t
    ensures HostFree(s.bans) ==> HostFree(s'.bans)
    ensures LiveBans(s'.bans, t) == LiveBans(s.bans, t)
  {
    CleanedIsLive(cfg, s, now);
    LiveTwice(s.bans, now, t);
    if r.Success? {
      LiveKeeps(s.bans, now, []);
    } else {
      PartExpiredLive(s.bans, lifted, now, t);
    }
    hide CleanedUp, Expired, LiveBans, IsHostNetwork;
  }

  /** Unless the file was just written, a move leaves the live bans and the file as they were. */
  lemma SavedOrSame(w: World, m: Move, w': World)
    requires Step(w, m, w') && Ordinary(w, m, w') && !m.event.Restart? && w.config.persists
    ensures w'.config == w.config
    ensures (w'.disk.Some? && Saves(w'.agg, w'.disk.value))
         || (w'.disk == w.disk && forall t | t >= m.now :: LiveBans(w'.agg.bans, t) == LiveBans(w.agg.bans, t))
  {
    var cfg, e := w.config.aggregation, m.event;
    hide RecordStep, CleanupStep, Saves, ResetDone, IsException, LiveBans, Guarded, PlaceStep, CoveredBySubnet;
    match e
    case Hit(ip, weight, rule, evicted, recorded) =>
      if !IsException(ip, w.config.exceptions) {
        RecordReports(cfg, w.agg, w.entries, ip, weight, rule, m.now, evicted, w'.agg, w'.entries, recorded);
      }
    case Cleanup(lifted, cleaned) =>
      forall t | t >= m.now ensures LiveBans(w'.agg.bans, t) == LiveBans(w.agg.bans, t) {
        CleanupHostFree(cfg, w.agg, w.entries, m.now, lifted, w'.agg, w'.entries, cleaned, t);
      }
    case AddBan(target, seconds, reason, failed, forgotten, added) =>
      if GoodDuration(w.config, seconds) && added.Failure? {
        ManualReports(cfg, w.agg, w.entries, target, seconds, reason, m.now, failed, forgotten, w'.agg, w'.entries,
                      Failure(added.error.error));
      }
    case Reset(_) =>
    case Persist =>
    case Reconcile(_) =>
    case Idle =>
  }

  lemma ManualReports(cfg: Config, s: AggState, entries: set<BanTarget>, target: BanTarget, duration: int,
                      reason: string, now: int, failed: set<IpAddr>, forgotten: set<IpNet>,
                      s': AggState, entries': set<BanTarget>, r: Result<ActiveBan, BackendError>)
    requires AddManualStep(cfg, s, entries, target, duration, reason, now, failed, forgotten, s', entries', r)
    ensures r.Failure? ==> s'.bans == s.bans
  {
    hide Placed, TrimChoice, CoveredIps, CoveredBySubnet;
  }

  lemma StepHostFree(w: World, m: Move, w': World)
    requires Step(w, m, w') && Ordinary(w, m, w') && !m.event.Restart? && HostFree(w.agg.bans) && Recovers(w.config)
    ensures HostFree(w'.agg.bans)
  {
    var cfg, e := w.config.aggregation, m.event;
    hide RecordStep, CleanupStep, Saves, IsException, Guarded, CoveredBySubnet, IsHostNetwork, SaveOutcome;
    match e
    case Hit(ip, weight, rule, evicted, recorded) =>
      if !IsException(ip, w.config.exceptions) {
        RecordHostFree(cfg, w.agg, w.entries, ip, weight, rule, m.now, evicted, w'.agg, w'.entries, recorded);
      }
    case Cleanup(lifted, cleaned) =>
      CleanupHostFree(cfg, w.agg, w.entries, m.now, lifted, w'.agg, w'.entries, cleaned, m.now);
    case AddBan(target, seconds, reason, failed, forgotten, added) =>
      if GoodDuration(w.config, seconds) && added.Success? {
        hide Placed, TrimChoice, CoveredIps;
        PlacedHostFree(cfg, w.agg.bans, target, ManualBan(cfg, w.agg.bans, target, seconds, reason, m.now), forgotten);
      }
    case Reset(target) => ResetHostFree(cfg, w.agg, target);
    case Persist =>
    case Reconcile(_) =>
    case Idle =>
  }

  lemma ResetHostFree(cfg: Config, s: AggState, target: BanTarget)
    requires HostFree(s.bans)
    ensures HostFree(ResetDone(cfg, s, target).bans)
  {
    hide Regroup, IsHostNetwork;
  }

  lemma StillRecoverable(w: World, now: int, w': World, now': int)
    requires Recoverable(w, now) && now <= now' && w'.config == w.config && w'.disk == w.disk
    requires forall t | t >= now' :: LiveBans(w'.agg.bans, t) == LiveBans(w.agg.bans, t)
    ensures Recoverable(w', now')
  {
    hide Loaded, LiveBans;
  }

  lemma StartDisk(config: WorkerConfig, disk: Option<PersistentState>, now: int, lifted: set<BanTarget>,
                  applied: Result<set<BanTarget>, BackendError>, w: World)
    requires Starts(config, disk, now, lifted, applied, w)
    ensures w.config == config && (w.disk == disk || (w.disk.Some? && Saves(w.agg, w.disk.value)))
  {
    hide Saves, Loaded, ApplyExceptionsStep;
  }

  lemma RestartSound(w: World, now: int, m: Move, w': World)
    requires Sound(w, now) && now <= m.now && m.event.Restart? && Step(w, m, w')
    requires TablesAgree(w') && CoreCaps(w')
    ensures w'.config == w.config && HostFree(w'.agg.bans) && Recoverable(w', m.now)
  {
    hide Starts, Saves, Loaded, TablesAgree, CoreCaps, ExceptionsHold, LiveBans, HostFree, Recoverable;
    var e := m.event;
    StartDisk(w.config, w.disk, m.now, e.lifted, e.applied, w');
    CrashRecovery(w, now, m.now, e.lifted, e.applied, w');
    LiveKeeps(w.agg.bans, m.now, []);
    if w'.disk == w.disk {
      forall t | t >= m.now ensures LiveBans(w'.agg.bans, t) == LiveBans(w.agg.bans, t) {
        LiveTwice(w.agg.bans, m.now, t);
      }
      StillRecoverable(w, now, w', m.now);
    } else {
      SavedIsRecoverable(w', m.now);
    }
  }

  lemma MoveSound(w: World, now: int, m: Move, w': World)
    requires Sound(w, now) && now <= m.now && Step(w, m, w') && Ordinary(w, m, w') && !m.event.Restart?
    requires TablesAgree(w') && CoreCaps(w')
    ensures w'.config == w.config && HostFree(w'.agg.bans) && Recoverable(w', m.now)
  {
    SavedOrSame(w, m, w');
    StepHostFree(w, m, w');
    hide TablesAgree, CoreCaps, ExceptionsHold, HostFree, Recoverable, LiveBans, Saves, Step, Ordinary;
    if w'.disk.Some? && Saves(w'.agg, w'.disk.value) {
      SavedIsRecoverable(w', m.now);
    } else {
      StillRecoverable(w, now, w', m.now);
    }
  }

  lemma StepKeepsSound(w: World, now: int, m: Move, w': World)
    requires Sound(w, now) && now <= m.now && Step(w, m, w') && Ordinary(w, m, w')
    ensures Sound(w', m.now)
  {
    hide Step, TablesAgree, CoreCaps, ExceptionsHold, HostFree, Recoverable;
    StepKeepsAgreement(w, m, w');
    StepKeepsCaps(w, m, w');
    StepKeepsExceptions(w, m, w');
    if m.event.Restart? {
      RestartSound(w, now, m, w');
    } else {
      MoveSound(w, now, m, w');
    }
  }

  // ---------- Every run ----------

  /** The last clock reading before world `i`. */
  function ClockAt(start: int, moves: seq<Move>, i: nat): int
    requires i <= |moves|
  {
    if i == 0 then start else moves[i - 1].now
  }

  lemma FirstStartSound(config: WorkerConfig, now: int, w: World)
    requires Recovers(config) && FirstStart(config, now, w)
    ensures Sound(w, now)
  {
    var lifted :| Starts(config, None, now, lifted, Success(lifted), w);
    StartAgrees(config, None, now, lifted, Success(lifted), w);
    var loaded := Loaded(config, None, now, w.agg.evictions);
    ApplyExceptionsUnexcepted(config.aggregation, loaded, SentTo(loaded, config.exceptions), config.exceptions, lifted,
                              w.agg, w.entries, Success(lifted), []);
    EmptyPass(config.aggregation, loaded, config.exceptions);
    hide TablesAgree, CoreCaps, ExceptionsHold, Saves, IsExcepted;
    if w.disk.Some? {
      SavedIsRecoverable(w, now);
    } else {
      forall t ensures LiveBans(EMPTY.bans, t) == EMPTY.bans {
      }
    }
  }

  lemma EmptyPass(cfg: Config, s: AggState, exceptions: seq<IpNet>)
    requires s.bans == EMPTY.bans
    ensures Cleared(cfg, s, exceptions).bans == EMPTY.bans
  {
  }

  /** A run from an empty disk that works, under one configuration that saves, with manual bans
      as the firewall passes them on; the backend may refuse anything. */
  ghost predicate OrdinaryRun(config: WorkerConfig, start: int, worlds: seq<World>, moves: seq<Move>) {
    && Recovers(config) && IsRun(worlds, moves) && FirstStart(config, start, worlds[0])
    && forall j | 0 <= j < |moves| :: start <= moves[j].now && Ordinary(worlds[j], moves[j], worlds[j + 1])
  }

  /** From an empty disk, with a disk that works and whatever the backend refuses, every world
      of a run can be rebuilt from the file after a crash. */
  lemma {:induction false} RunRecovers(config: WorkerConfig, start: int, worlds: seq<World>, moves: seq<Move>, i: nat)
    requires OrdinaryRun(config, start, worlds, moves) && i < |worlds|
    ensures Sound(worlds[i], ClockAt(start, moves, i))
  {
    hide Sound, Step, FirstStart, Ordinary;
    if i == 0 {
      FirstStartSound(config, start, worlds[0]);
    } else {
      RunRecovers(config, start, worlds, moves, i - 1);
      StepKeepsSound(worlds[i - 1], ClockAt(start, moves, i - 1), moves[i - 1], worlds[i]);
    }
  }

  /** Stopping after any move and restarting at any later time gives back the same bans and
      reputations, minus only what has expired since. */
  lemma RunCrashRecovery(config: WorkerConfig, start: int, worlds: seq<World>, moves: seq<Move>, i: nat,
                         t: int, lifted: set<BanTarget>, applied: Result<set<BanTarget>, BackendError>,
                         restarted: World)
    requires OrdinaryRun(config, start, worlds, moves) && i < |worlds|
    requires ClockAt(start, moves, i) <= t && Starts(worlds[i].config, worlds[i].disk, t, lifted, applied, restarted)
    ensures restarted.agg.bans == LiveBans(worlds[i].agg.bans, t)
  {
    hide Sound, Step, FirstStart, Ordinary, Starts, LiveBans;
    RunRecovers(config, start, worlds, moves, i);
    CrashRecovery(worlds[i], ClockAt(start, moves, i), t, lifted, applied, restarted);
  }
}
