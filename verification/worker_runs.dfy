/** Safety over whole runs of the worker, including restarts from the state file. */
module WorkerRuns {
  import opened Wrappers
  import opened Networks
  import opened Collections
  import opened Counters
  import opened AggregateState
  import opened AggregateSteps
  import opened AggregateInvariants
  import opened AggregateCaps
  import opened AggregateBans
  import opened Exceptions
  import opened Persistence
  import opened WorkerSteps

  /** The result of the worker's first start, with no state file. */
  ghost predicate FirstStart(config: WorkerConfig, now: int, w: World) {
    exists lifted :: Starts(config, None, now, lifted, Success(lifted), w)
  }

  // ---------- The tables agree in every reachable world ----------

  ghost predicate TablesAgree(w: World) {
    Agrees(w.config.aggregation, w.agg)
  }

  lemma LoadedAgrees(config: WorkerConfig, disk: Option<PersistentState>, now: int, evictions: u64)
    ensures Agrees(config.aggregation, Loaded(config, disk, now, evictions))
    ensures IpsWithinCap(config.aggregation, Loaded(config, disk, now, evictions).scores)
    ensures BansWithinCaps(config.aggregation, Loaded(config, disk, now, evictions).bans)
  {
    EmptyAgrees(config.aggregation);
    hide Restored, BansAgree, ScoresAgree;
    if disk.Some? {
      RestoredAgrees(config.aggregation, disk.value, now);
    }
  }

  lemma EmptyAgrees(cfg: Config)
    ensures Agrees(cfg, EMPTY)
    ensures IpsWithinCap(cfg, EMPTY.scores) && BansWithinCaps(cfg, EMPTY.bans)
  {
    assert Regroup(cfg, map[]) == map[];
  }

  lemma StartAgrees(config: WorkerConfig, disk: Option<PersistentState>, now: int, lifted: set<BanTarget>,
                    applied: Result<set<BanTarget>, BackendError>, w: World)
    requires Starts(config, disk, now, lifted, applied, w)
    ensures w.config == config && TablesAgree(w)
    ensures IpsWithinCap(config.aggregation, w.agg.scores) && BansWithinCaps(config.aggregation, w.agg.bans)
  {
    var cfg := config.aggregation;
    var loaded := Loaded(config, disk, now, w.agg.evictions);
    LoadedAgrees(config, disk, now, w.agg.evictions);
    hide Loaded, ApplyExceptionsStep, Agrees, SentTo, Saves;
    ApplyExceptionsAgrees(cfg, loaded, SentTo(loaded, config.exceptions), config.exceptions, lifted, w.agg, w.entries,
                          applied);
    ApplyExceptionsWithinCaps(cfg, loaded, SentTo(loaded, config.exceptions), config.exceptions, lifted, w.agg,
                              w.entries, applied);
  }

  lemma UpdateAgrees(w: World, e: Event, w': World)
    requires e.Update? && TablesAgree(w) && UpdateMove(w, e, w')
    ensures TablesAgree(w')
  {
    if e.config.ipset == w.config.ipset && e.config.firewall == w.config.firewall && e.reconciled {
      var cfg := w.config.aggregation;
      var applied := w'.agg.(scores := w'.agg.scores.(subnets :=
        if e.applied.Success? then Regroup(cfg, w'.agg.scores.counts) else w'.agg.scores.subnets));
      hide ApplyExceptionsStep, SentTo, BansAgree, Regroup, Saves;
      ApplyExceptionsAgrees(cfg, w.agg, SentTo(w.agg, e.config.exceptions), e.config.exceptions, e.lifted, applied,
                            w'.entries, e.applied);
    }
  }

  lemma StepKeepsAgreement(w: World, m: Move, w': World)
    requires TablesAgree(w) && Step(w, m, w')
    ensures TablesAgree(w')
  {
    var cfg, e := w.config.aggregation, m.event;
    hide RecordStep, CleanupStep, AddManualStep, UpdateMove, Starts, Agrees, Saves, ResetDone, IsException;
    match e
    case Hit(ip, weight, rule, evicted, recorded) =>
      if !IsException(ip, w.config.exceptions) {
        RecordAgrees(cfg, w.agg, w.entries, ip, weight, rule, m.now, evicted, w'.agg, w'.entries, recorded);
      }
    case Cleanup(lifted, cleaned) =>
      CleanupAgrees(cfg, w.agg, w.entries, m.now, lifted, w'.agg, w'.entries, cleaned);
    case AddBan(target, seconds, reason, failed, forgotten, added) =>
      if GoodDuration(w.config, seconds) {
        AddManualAgrees(cfg, w.agg, w.entries, target, seconds, reason, m.now, failed, forgotten, w'.agg, w'.entries,
                        match added case Success(ban) => Success(ban) case Failure(f) => Failure(f.error));
      }
    case Reset(target) => ResetAgrees(cfg, w.agg, target);
    case Update(_, _, _, _) => UpdateAgrees(w, e, w');
    case Restart(lifted, applied) => StartAgrees(w.config, w.disk, m.now, lifted, applied, w');
    case Persist =>
    case Reconcile(_) =>
    case Idle =>
  }

  /** Whatever fails on the way, and through policy updates, crashes and restarts, the tables
      agree in every world a run reaches. */
  lemma {:induction false} RunAgrees(worlds: seq<World>, moves: seq<Move>, i: nat)
    requires IsRun(worlds, moves) && i < |worlds| && TablesAgree(worlds[0])
    ensures TablesAgree(worlds[i])
  {
    hide Step, TablesAgree;
    if i > 0 {
      RunAgrees(worlds, moves, i - 1);
      StepKeepsAgreement(worlds[i - 1], moves[i - 1], worlds[i]);
    }
  }

  // ---------- Caps ----------

  ghost predicate CoreCaps(w: World) {
    IpsWithinCap(w.config.aggregation, w.agg.scores) && BansWithinCaps(w.config.aggregation, w.agg.bans)
  }

  lemma StepKeepsCaps(w: World, m: Move, w': World)
    requires TablesAgree(w) && Step(w, m, w') && !m.event.Update?
    ensures CoreCaps(w) ==> CoreCaps(w')
    ensures !m.event.Restart? && IndexWithinCaps(w.config.aggregation, w.agg.scores) ==>
              IndexWithinCaps(w'.config.aggregation, w'.agg.scores)
  {
    var cfg, e := w.config.aggregation, m.event;
    hide RecordStep, CleanupStep, AddManualStep, Starts, Agrees, Saves, ResetDone, IsException;
    hide BansWithinCaps, IpsWithinCap, IndexWithinCaps;
    match e
    case Hit(ip, weight, rule, evicted, recorded) =>
      if !IsException(ip, w.config.exceptions) {
        RecordWithinCaps(cfg, w.agg, w.entries, ip, weight, rule, m.now, evicted, w'.agg, w'.entries, recorded);
      }
    case Cleanup(lifted, cleaned) =>
      CleanupWithinCaps(cfg, w.agg, w.entries, m.now, lifted, w'.agg, w'.entries, cleaned);
    case AddBan(target, seconds, reason, failed, forgotten, added) =>
      if GoodDuration(w.config, seconds) {
        AddManualWithinCaps(cfg, w.agg, w.entries, target, seconds, reason, m.now, failed, forgotten, w'.agg,
                            w'.entries,
                            match added case Success(ban) => Success(ban) case Failure(f) => Failure(f.error));
      }
    case Reset(target) => ResetWithinCaps(cfg, w.agg, target);
    case Restart(lifted, applied) => StartAgrees(w.config, w.disk, m.now, lifted, applied, w');
    case Persist =>
    case Reconcile(_) =>
    case Idle =>
  }

  /** Under one configuration tracked addresses, bans and reputations never exceed their caps,
      through restarts too. */
  lemma {:induction false} RunWithinCaps(worlds: seq<World>, moves: seq<Move>, i: nat)
    requires IsRun(worlds, moves) && i < |worlds| && TablesAgree(worlds[0]) && CoreCaps(worlds[0])
    requires forall j | 0 <= j < |moves| :: !moves[j].event.Update?
    ensures CoreCaps(worlds[i])
  {
    hide Step, TablesAgree, CoreCaps;
    if i > 0 {
      RunWithinCaps(worlds, moves, i - 1);
      RunAgrees(worlds, moves, i - 1);
      StepKeepsCaps(worlds[i - 1], moves[i - 1], worlds[i]);
    }
  }

  /** The subnet index and the crossings stay within their caps as well, as long as no file is
      restored and no policy shrinks them. */
  lemma {:induction false} RunIndexWithinCaps(worlds: seq<World>, moves: seq<Move>, i: nat)
    requires IsRun(worlds, moves) && i < |worlds| && TablesAgree(worlds[0])
    requires IndexWithinCaps(worlds[0].config.aggregation, worlds[0].agg.scores)
    requires forall j | 0 <= j < |moves| :: !moves[j].event.Update? && !moves[j].event.Restart?
    ensures IndexWithinCaps(worlds[i].config.aggregation, worlds[i].agg.scores)
  {
    hide Step, TablesAgree, CoreCaps, IndexWithinCaps;
    if i > 0 {
      RunIndexWithinCaps(worlds, moves, i - 1);
      RunAgrees(worlds, moves, i - 1);
      StepKeepsCaps(worlds[i - 1], moves[i - 1], worlds[i]);
    }
  }

  // ---------- Exceptions ----------

  ghost predicate ExceptionsHold(w: World) {
    Unexcepted(w.agg, w.config.exceptions)
  }

  /** Manual bans passed the allowlist check, and the exception pass of a restart completed. */
  predicate Guarded(w: World, m: Move) {
    match m.event
    case AddBan(target, _, _, _, _, _) => !IsExcepted(target, w.config.exceptions)
    case Restart(_, applied) => applied.Success?
    case _ => true
  }

  lemma UpdateKeepsExceptions(w: World, e: Event, w': World)
    requires e.Update? && ExceptionsHold(w) && UpdateMove(w, e, w')
    ensures ExceptionsHold(w')
  {
    if e.config.ipset == w.config.ipset && e.config.firewall == w.config.firewall && e.reconciled {
      var cfg := w.config.aggregation;
      var applied := w'.agg.(scores := w'.agg.scores.(subnets :=
        if e.applied.Success? then Regroup(cfg, w'.agg.scores.counts) else w'.agg.scores.subnets));
      hide ApplyExceptionsStep, SentTo, BansAgree, Regroup, Saves, BansUnexcepted;
      ApplyExceptionsUnexcepted(cfg, w.agg, SentTo(w.agg, e.config.exceptions), e.config.exceptions, e.lifted, applied,
                                w'.entries, e.applied, w.config.exceptions);
    }
  }

  lemma StepKeepsExceptions(w: World, m: Move, w': World)
    requires ExceptionsHold(w) && Guarded(w, m) && Step(w, m, w')
    ensures ExceptionsHold(w')
  {
    var cfg, e, exceptions := w.config.aggregation, m.event, w.config.exceptions;
    hide RecordStep, CleanupStep, AddManualStep, UpdateMove, ApplyExceptionsStep, Saves, ResetDone, IsException;
    hide Unexcepted, Loaded, SentTo, IsExcepted;
    match e
    case Hit(ip, weight, rule, evicted, recorded) =>
      if !IsException(ip, exceptions) {
        RecordUnexcepted(cfg, w.agg, w.entries, ip, weight, rule, m.now, evicted, w'.agg, w'.entries, recorded,
                         exceptions);
      }
    case Cleanup(lifted, cleaned) =>
      CleanupUnexcepted(cfg, w.agg, w.entries, m.now, lifted, w'.agg, w'.entries, cleaned, exceptions);
    case AddBan(target, seconds, reason, failed, forgotten, added) =>
      if GoodDuration(w.config, seconds) {
        AddManualUnexcepted(cfg, w.agg, w.entries, target, seconds, reason, m.now, failed, forgotten, w'.agg,
                            w'.entries,
                            match added case Success(ban) => Success(ban) case Failure(f) => Failure(f.error),
                            exceptions);
      }
    case Reset(target) => ResetUnexcepted(cfg, w.agg, target, exceptions);
    case Update(_, _, _, _) => UpdateKeepsExceptions(w, e, w');
    case Restart(lifted, applied) =>
      var loaded := Loaded(w.config, w.disk, m.now, w'.agg.evictions);
      ApplyExceptionsUnexcepted(cfg, loaded, SentTo(loaded, exceptions), exceptions, lifted, w'.agg, w'.entries,
                                applied,
                                exceptions);
    case Persist =>
    case Reconcile(_) =>
    case Idle =>
  }

  /** In every world of a guarded run no ban, reputation or score concerns an exception of the
      configuration then in force. */
  lemma {:induction false} RunKeepsExceptions(worlds: seq<World>, moves: seq<Move>, i: nat)
    requires IsRun(worlds, moves) && i < |worlds| && ExceptionsHold(worlds[0])
    requires forall j | 0 <= j < |moves| :: Guarded(worlds[j], moves[j])
    ensures ExceptionsHold(worlds[i])
  {
    hide Step, Guarded, ExceptionsHold;
    if i > 0 {
      RunKeepsExceptions(worlds, moves, i - 1);
      StepKeepsExceptions(worlds[i - 1], moves[i - 1], worlds[i]);
    }
  }
}
