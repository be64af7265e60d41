/** The backend over whole runs: every ban has its entry, and every surplus entry is a single
    address whose removal failed when a subnet took it over. */
module WorkerBackend {
  import opened Wrappers
  import opened Networks
  import opened Counters
  import opened AggregateState
  import opened AggregateSteps
  import opened AggregateBans
  import opened TableEffects
  import opened Persistence
  import opened WorkerSteps
  import opened WorkerRuns

  /** The addresses whose redundant entries an event failed to remove. */
  function FailedIn(e: Event): set<IpAddr> {
    match e
    case Hit(_, _, _, _, recorded) => CleanupErrors(recorded)
    case AddBan(_, _, _, failed, _, added) => if added.Success? then failed else {}
    case _ => {}
  }

  /** No exception pass stopped part way. */
  predicate PassCompletes(e: Event) {
    match e
    case Update(_, reconciled, _, applied) => reconciled ==> applied.Success?
    case Restart(_, applied) => applied.Success?
    case _ => true
  }

  lemma PassBacked(cfg: Config, s: AggState, exceptions: seq<IpNet>, lifted: set<BanTarget>, s': AggState,
                   entries': set<BanTarget>, removed: set<BanTarget>)
    requires ApplyExceptionsStep(cfg, s, SentTo(s, exceptions), exceptions, lifted, s', entries', Success(removed))
    ensures s'.bans.active.Keys == entries'
  {
    hide IsExcepted, UnexceptedScores;
  }

  /** A pass that stops part way leaves exactly the excepted bans it did not reach without a
      backend entry; nothing else differs. */
  lemma StoppedPassMisses(cfg: Config, s: AggState, exceptions: seq<IpNet>, lifted: set<BanTarget>, s': AggState,
                          entries': set<BanTarget>, error: BackendError)
    requires ApplyExceptionsStep(cfg, s, SentTo(s, exceptions), exceptions, lifted, s', entries', Failure(error))
    ensures s'.bans.active.Keys - entries' == ExceptedTargets(s'.bans, exceptions) != {}
    ensures Surplus(s'.bans, entries') == {}
  {
    hide IsExcepted;
    var t :| t in ExceptedTargets(s.bans, exceptions) && t !in lifted;
    assert t in ExceptedTargets(s'.bans, exceptions);
  }

  lemma UpdateBacked(w: World, e: Event, w': World)
    requires e.Update? && PassCompletes(e) && Backed(w.agg.bans, w.entries) && UpdateMove(w, e, w')
    ensures Backed(w'.agg.bans, w'.entries)
    ensures Surplus(w'.agg.bans, w'.entries) <= Surplus(w.agg.bans, w.entries)
  {
    if e.config.ipset == w.config.ipset && e.config.firewall == w.config.firewall && e.reconciled {
      var cfg := w.config.aggregation;
      var applied := w'.agg.(scores := w'.agg.scores.(subnets :=
        if e.applied.Success? then Regroup(cfg, w'.agg.scores.counts) else w'.agg.scores.subnets));
      hide ApplyExceptionsStep, SentTo, Regroup, Saves;
      PassBacked(cfg, w.agg, e.config.exceptions, e.lifted, applied, w'.entries, e.applied.value);
    }
  }

  /** A policy update with other startup settings changes nothing; only one whose passes complete
      is adopted, and then the bans left are exactly those it does not except, each with its
      record, and exactly those are in the backend. */
  lemma UpdateAdopts(w: World, m: Move, w': World)
    requires Step(w, m, w') && m.event.Update? && TablesAgree(w)
    ensures
      var e := m.event;
      var adopted := e.config.ipset == w.config.ipset && e.config.firewall == w.config.firewall
                     && e.reconciled && e.applied.Success?;
      && (e.config.ipset != w.config.ipset || e.config.firewall != w.config.firewall || !e.reconciled ==> w' == w)
      && w'.config == (if adopted then e.config else w.config)
      && (!adopted ==> w'.disk == w.disk && w'.dirty == w.dirty && w'.agg.scores == w.agg.scores)
      && (adopted ==>
            && Keeps(w.agg.bans.active, w'.agg.bans.active, (t: BanTarget) =>
                 if t.Ip? then NotExcepted(t.ip, e.config.exceptions) else Uncovered(t.net, e.config.exceptions))
            && e.applied.value == w.agg.bans.active.Keys - w'.agg.bans.active.Keys
            && w'.entries == w'.agg.bans.active.Keys
            && Keeps(w.agg.scores.counts, w'.agg.scores.counts, ip => NotExcepted(ip, e.config.exceptions))
            && w'.agg.scores.subnets == GroupTotals(w'.agg.scores.counts, SubnetKey(e.config.aggregation)))
  {
    var e := m.event;
    if e.config.ipset == w.config.ipset && e.config.firewall == w.config.firewall && e.reconciled {
      var cfg := w.config.aggregation;
      var applied := w'.agg.(scores := w'.agg.scores.(subnets :=
        if e.applied.Success? then Regroup(cfg, w'.agg.scores.counts) else w'.agg.scores.subnets));
      if e.applied.Success? {
        ExceptionsKeepExactly(cfg, w.agg, SentTo(w.agg, e.config.exceptions), e.config.exceptions, e.lifted, applied,
                              w'.entries, e.applied);
      }
      hide Regroup, Saves, Keeps, KeepsNoted, NotExcepted, Uncovered, UnexceptedScores, IsExcepted;
    }
  }

  lemma StepBacked(w: World, m: Move, w': World)
    requires TablesAgree(w) && Step(w, m, w') && PassCompletes(m.event)
    requires Backed(w.agg.bans, w.entries)
    ensures Backed(w'.agg.bans, w'.entries)
    ensures Surplus(w'.agg.bans, w'.entries) <= Surplus(w.agg.bans, w.entries) + IpTargets(FailedIn(m.event))
    ensures forall ip | ip in FailedIn(m.event) :: CoveredBySubnet(w'.agg.bans, ip)
  {
    var cfg, e := w.config.aggregation, m.event;
    hide RecordStep, CleanupStep, AddManualStep, ApplyExceptionsStep, UpdateMove, Saves, ResetDone, IsException;
    hide CoveredBySubnet, Loaded, SentTo, Surplus, Backed;
    match e
    case Hit(ip, weight, rule, evicted, recorded) =>
      if !IsException(ip, w.config.exceptions) {
        RecordBacked(cfg, w.agg, w.entries, ip, weight, rule, m.now, evicted, w'.agg, w'.entries, recorded);
      }
    case Cleanup(lifted, cleaned) =>
      CleanupBacked(cfg, w.agg, w.entries, m.now, lifted, w'.agg, w'.entries, cleaned);
    case AddBan(target, seconds, reason, failed, forgotten, added) =>
      if GoodDuration(w.config, seconds) {
        AddManualBacked(cfg, w.agg, w.entries, target, seconds, reason, m.now, failed, forgotten, w'.agg, w'.entries,
                        match added case Success(ban) => Success(ban) case Failure(f) => Failure(f.error));
      }
    case Reset(target) => ResetBacked(cfg, w.agg, target, w.entries);
    case Update(_, _, _, _) => UpdateBacked(w, e, w');
    case Restart(lifted, applied) =>
      var loaded := Loaded(w.config, w.disk, m.now, w'.agg.evictions);
      PassBacked(cfg, loaded, w.config.exceptions, lifted, w'.agg, w'.entries, applied.value);
      SameEntries(w'.agg.bans, w'.entries);
    case Persist =>
    case Reconcile(_) => SameEntries(w'.agg.bans, w'.agg.bans.active.Keys);
    case Idle =>
  }

  lemma SameEntries(bans: Bans, entries: set<BanTarget>)
    ensures bans.active.Keys == entries ==> Backed(bans, entries) && Surplus(bans, entries) == {}
  {
  }

  lemma ResetBacked(cfg: Config, s: AggState, target: BanTarget, entries: set<BanTarget>)
    ensures Backed(ResetDone(cfg, s, target).bans, entries) == Backed(s.bans, entries)
    ensures Surplus(ResetDone(cfg, s, target).bans, entries) == Surplus(s.bans, entries)
  {
    hide Regroup;
  }

  /** Move `j` banned a subnet around the address but could not remove the address's entry. */
  ghost predicate LeftBehind(worlds: seq<World>, moves: seq<Move>, j: nat, t: BanTarget)
    requires j < |moves| && |worlds| == |moves| + 1
  {
    t.Ip? && t.ip in FailedIn(moves[j].event) && CoveredBySubnet(worlds[j + 1].agg.bans, t.ip)
  }

  /** In every world of a run whose exception passes complete, the bans are among the backend's
      entries, and each surplus entry was left behind by some earlier move. */
  lemma {:induction false} RunBacked(worlds: seq<World>, moves: seq<Move>, i: nat)
    requires IsRun(worlds, moves) && i < |worlds| && TablesAgree(worlds[0])
    requires worlds[0].entries == worlds[0].agg.bans.active.Keys
    requires forall j | 0 <= j < |moves| :: PassCompletes(moves[j].event)
    ensures Backed(worlds[i].agg.bans, worlds[i].entries)
    ensures forall t | t in Surplus(worlds[i].agg.bans, worlds[i].entries) ::
              exists j: nat | j < i :: LeftBehind(worlds, moves, j, t)
  {
    if i > 0 {
      var w, m, w' := worlds[i - 1], moves[i - 1], worlds[i];
      RunBacked(worlds, moves, i - 1);
      RunAgrees(worlds, moves, i - 1);
      hide TablesAgree, CoveredBySubnet, Backed;
      assert Step(w, m, w');
      StepBacked(w, m, w');
      hide Step, FailedIn;
      forall t | t in Surplus(w'.agg.bans, w'.entries)
        ensures exists j: nat | j < i :: LeftBehind(worlds, moves, j, t)
      {
        if t in Surplus(w.agg.bans, w.entries) {
          var j: nat :| j < i - 1 && LeftBehind(worlds, moves, j, t);
          assert LeftBehind(worlds, moves, j, t);
        } else {
          assert LeftBehind(worlds, moves, i - 1, t);
        }
      }
    }
  }

  /** One successful reconciliation makes the entries exactly the bans again. */
  lemma ReconcileRestores(w: World, m: Move, w': World)
    requires Step(w, m, w') && m.event == Reconcile(true)
    ensures w'.agg == w.agg && w'.entries == w'.agg.bans.active.Keys
  {
  }
}
