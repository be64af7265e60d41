/** The engine's worker as a transition system: the aggregator, the backend's entries, the state
    file and the dirty flag, changed by commands, by the parts of a poll, and by restarts. */
module WorkerSteps {
  import opened Wrappers
  import opened Networks
  import opened Counters
  import opened AggregateState
  import opened AggregateSteps
  import opened Persistence

  /** The parts of the compiled configuration that decide state; the ipset and firewall settings
      only have to be compared. */
  datatype WorkerConfig = WorkerConfig(
    aggregation: Config, exceptions: seq<IpNet>, persists: bool, ipset: string, firewall: string)

  datatype World = World(
    config: WorkerConfig, agg: AggState, entries: set<BanTarget>, disk: Option<PersistentState>, dirty: bool)

  datatype WorkerError = BadDuration | StartupOnly | BackendFailed(error: BackendError) | NotFlushed

  datatype Event =
    | Hit(ip: IpAddr, weight: u64, rule: string, evicted: Evicted, recorded: Result<RecordResult, BackendError>)
    | Cleanup(lifted: set<BanTarget>, cleaned: Result<set<BanTarget>, BackendError>)
    | AddBan(target: BanTarget, seconds: nat, reason: string, failed: set<IpAddr>, forgotten: set<IpNet>,
             added: Result<ActiveBan, WorkerError>)
    | Reset(target: BanTarget)
    | Persist
    | Reconcile(ok: bool)
    | Update(config: WorkerConfig, reconciled: bool, lifted: set<BanTarget>,
             applied: Result<set<BanTarget>, BackendError>)
    | Restart(lifted: set<BanTarget>, applied: Result<set<BanTarget>, BackendError>)
    | Idle

  /** One transition: the event, the clock it read, and whether a save was due. */
  datatype Move = Move(event: Event, now: int, due: bool)

  /** Saving happens only when dirty and due; a failed save leaves file and flag as they were. */
  ghost predicate SaveOutcome(config: WorkerConfig, agg: AggState, disk: Option<PersistentState>, dirty: bool,
                              due: bool, disk': Option<PersistentState>, dirty': bool) {
    if !dirty || !due then disk' == disk && dirty' == dirty
    else if !config.persists then disk' == disk && !dirty'
    else (disk' == disk && dirty') || (disk'.Some? && Saves(agg, disk'.value) && !dirty')
  }

  ghost predicate SavedAfter(w: World, w': World, dirty: bool, due: bool) {
    SaveOutcome(w'.config, w'.agg, w.disk, dirty, due, w'.disk, w'.dirty)
  }

  ghost predicate HitStep(w: World, e: Event, now: int, due: bool, w': World)
    requires e.Hit?
  {
    && w'.config == w.config
    && if IsException(e.ip, w.config.exceptions) then w' == w && e.recorded == Success(RecordResult([], {})) else
         && RecordStep(w.config.aggregation, w.agg, w.entries, e.ip, e.weight, e.rule, now, e.evicted,
                       w'.agg, w'.entries, e.recorded)
         && (if e.recorded.Failure? then w'.disk == w.disk && w'.dirty == w.dirty
             else (e.recorded.value.transitions != [] ==> due) && SavedAfter(w, w', true, due))
  }

  ghost predicate CleanupMove(w: World, e: Event, now: int, w': World)
    requires e.Cleanup?
  {
    && w'.config == w.config
    && CleanupStep(w.config.aggregation, w.agg, w.entries, now, e.lifted, w'.agg, w'.entries, e.cleaned)
    && (if e.cleaned.Failure? then w'.disk == w.disk && w'.dirty == w.dirty
        else SavedAfter(w, w', w.dirty || e.cleaned.value != {}, true))
  }

  predicate GoodDuration(config: WorkerConfig, seconds: nat) {
    60 <= seconds <= config.aggregation.maxBan
  }

  ghost predicate AddBanMove(w: World, e: Event, now: int, w': World)
    requires e.AddBan?
  {
    && w'.config == w.config
    && if !GoodDuration(w.config, e.seconds) then e.added == Failure(BadDuration) && w' == w else
         && (e.added.Failure? ==> e.added.error.BackendFailed?)
         && AddManualStep(w.config.aggregation, w.agg, w.entries, e.target, e.seconds, e.reason, now, e.failed,
                          e.forgotten, w'.agg, w'.entries,
                          match e.added case Success(ban) => Success(ban) case Failure(f) => Failure(f.error))
         && (if e.added.Failure? then w'.disk == w.disk && w'.dirty == w.dirty else SavedAfter(w, w', true, true))
  }

  ghost predicate ResetMove(w: World, e: Event, w': World)
    requires e.Reset?
  {
    && w'.config == w.config && w'.entries == w.entries
    && w'.agg == ResetDone(w.config.aggregation, w.agg, e.target)
    && SavedAfter(w, w', true, true)
  }

  ghost function SentTo(agg: AggState, exceptions: seq<IpNet>): set<BanTarget> {
    agg.bans.active.Keys - ExceptedTargets(agg.bans, exceptions)
  }

  /** A policy update: the backend is rebuilt without excepted targets, the aggregator drops
      them, and only then is the new configuration adopted and saved. */
  ghost predicate UpdateMove(w: World, e: Event, w': World)
    requires e.Update?
  {
    if e.config.ipset != w.config.ipset || e.config.firewall != w.config.firewall || !e.reconciled then
      w' == w
    else
      && ApplyExceptionsStep(w.config.aggregation, w.agg, SentTo(w.agg, e.config.exceptions), e.config.exceptions,
                             e.lifted, w'.agg.(scores := w'.agg.scores.(subnets :=
                               if e.applied.Success? then Regroup(w.config.aggregation, w'.agg.scores.counts)
                               else w'.agg.scores.subnets)),
                             w'.entries, e.applied)
      && (match e.applied
          case Failure(_) => w'.config == w.config && w'.disk == w.disk && w'.dirty == w.dirty
          case Success(_) =>
            && w'.config == e.config
            && w'.agg.scores.subnets == Regroup(e.config.aggregation, w'.agg.scores.counts)
            && SavedAfter(w, w', true, true))
  }

  /** A start from the state file: what it restores, without what the exceptions cover.  The
      cleared state is saved at once when there are exceptions; a failed save is only reported. */
  ghost predicate Starts(config: WorkerConfig, disk: Option<PersistentState>, now: int, lifted: set<BanTarget>,
                         applied: Result<set<BanTarget>, BackendError>, w': World) {
    var restored := Loaded(config, disk, now, w'.agg.evictions);
    && w'.config == config && !w'.dirty
    && ApplyExceptionsStep(config.aggregation, restored, SentTo(restored, config.exceptions), config.exceptions,
                           lifted, w'.agg, w'.entries, applied)
    && (w'.disk == disk
        || (applied.Success? && config.exceptions != [] && config.persists
            && w'.disk.Some? && Saves(w'.agg, w'.disk.value)))
  }

  /** A missing file or one with another schema loads as nothing. */
  ghost function Loaded(config: WorkerConfig, disk: Option<PersistentState>, now: int, evictions: u64): AggState {
    if !config.persists || disk.None? || disk.value.schemaVersion != SCHEMA_VERSION then EMPTY
    else Restored(config.aggregation, EMPTY, disk.value, now).(evictions := evictions)
  }

  ghost predicate Step(w: World, m: Move, w': World) {
    match m.event
    case Hit(_, _, _, _, _) => HitStep(w, m.event, m.now, m.due, w')
    case Cleanup(_, _) => CleanupMove(w, m.event, m.now, w')
    case AddBan(_, _, _, _, _, _) => AddBanMove(w, m.event, m.now, w')
    case Reset(_) => ResetMove(w, m.event, w')
    case Persist =>
      w' == w.(disk := w'.disk, dirty := w'.dirty) && SavedAfter(w, w', w.dirty, m.due)
    case Reconcile(ok) => w' == w.(entries := if ok then w.agg.bans.active.Keys else w.entries)
    case Update(_, _, _, _) => UpdateMove(w, m.event, w')
    case Restart(lifted, applied) => Starts(w.config, w.disk, m.now, lifted, applied, w')
    case Idle => w' == w
  }

  /** Consecutive worlds joined by moves whose clock never goes back. */
  ghost predicate IsRun(worlds: seq<World>, moves: seq<Move>) {
    && |worlds| == |moves| + 1
    && (forall i | 0 <= i < |moves| :: Step(worlds[i], moves[i], worlds[i + 1]))
    && (forall i, j | 0 <= i <= j < |moves| :: moves[i].now <= moves[j].now)
  }

  /** A run that leads from one world to another, reading the clock only at `now`. */
  ghost predicate Leads(first: World, worlds: seq<World>, moves: seq<Move>, last: World, now: int) {
    && IsRun(worlds, moves) && worlds[0] == first && worlds[|moves|] == last
    && forall i | 0 <= i < |moves| :: moves[i].now == now
  }

  lemma StayPut(w: World, now: int)
    ensures Leads(w, [w], [], w, now)
  {
  }

  lemma OneMoreMove(first: World, worlds: seq<World>, moves: seq<Move>, w: World, now: int, m: Move, w': World)
    requires Leads(first, worlds, moves, w, now) && m.now == now && Step(w, m, w')
    ensures Leads(first, worlds + [w'], moves + [m], w', now)
  {
    hide Step;
    var worlds', moves' := worlds + [w'], moves + [m];
    forall i | 0 <= i < |moves'| ensures Step(worlds'[i], moves'[i], worlds'[i + 1]) && moves'[i].now == now {
      if i < |moves| {
        assert Step(worlds[i], moves[i], worlds[i + 1]);
      }
    }
  }
}
