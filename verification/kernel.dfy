/** The kernel sets over whole runs.  The kernel knows an entry by its truncated network, not by
    the target it was added for, so two bans of one network share an entry. */
module Kernel {
  import opened Wrappers
  import opened Networks
  import opened Collections
  import opened Counters
  import opened AggregateState
  import opened AggregateSteps
  import opened AggregateInvariants
  import opened AggregateBans
  import opened Exceptions
  import opened IpSet
  import opened Persistence
  import opened WorkerSteps
  import opened WorkerRuns
  import opened WorkerBackend
  import opened WorkerEscalation

  // ---------- Calls ----------

  /** A call the kernel carried out; refused ones have no effect. */
  datatype Call =
    | Added(target: BanTarget)
    | Removed(target: BanTarget)
    | Rebuilt(content: Content)

  /** What a kernel set is rebuilt from. */
  datatype Content = Content(targets: set<BanTarget>, exceptions: seq<IpNet>)

  function Key(target: BanTarget): IpNet {
    Canonical(NetworkOf(target))
  }

  /** Adding is for matching addresses; deleting ignores the flag of what it deletes. */
  function AfterCall(k: KernelSet, call: Call): KernelSet {
    match call
    case Added(target) => k[Key(target) := Match]
    case Removed(target) => k - {Key(target)}
    case Rebuilt(content) => Built(content.targets, content.exceptions)
  }

  function AfterCalls(k: KernelSet, calls: seq<Call>): KernelSet
    decreases |calls|
  {
    if calls == [] then k else AfterCalls(AfterCall(k, calls[0]), calls[1..])
  }

  /** The calls of one move: at most one rebuilding, then at most one addition, then removals. */
  datatype Effect = Effect(rebuilt: Option<Content>, added: set<BanTarget>, removed: set<BanTarget>)

  const NO_EFFECT: Effect := Effect(None, {}, {})

  function Placing(bans: Bans, added: set<BanTarget>, failed: set<IpAddr>): Effect {
    Effect(None, added, set t, ip | t in added && ip in CoveredIps(bans.ips, t) && ip !in failed :: Ip(ip))
  }

  function Passing(targets: set<BanTarget>, exceptions: seq<IpNet>, lifted: set<BanTarget>,
                   applied: Result<set<BanTarget>, BackendError>): Effect {
    Effect(Some(Content(targets, exceptions)), {}, if applied.Success? then applied.value else lifted)
  }

  ghost function EffectOf(w: World, m: Move, w': World): Effect {
    match m.event
    case Hit(_, _, _, _, recorded) => Placing(w.agg.bans, ReportedTargets(recorded), CleanupErrors(recorded))
    case AddBan(target, _, _, failed, _, added) =>
      if added.Success? then Placing(w.agg.bans, {target}, failed) else NO_EFFECT
    case Cleanup(lifted, cleaned) => Effect(None, {}, if cleaned.Success? then cleaned.value else lifted)
    case Reconcile(ok) =>
      if ok then Effect(Some(Content(w.agg.bans.active.Keys, w.config.exceptions)), {}, {}) else NO_EFFECT
    case Update(config, reconciled, lifted, applied) =>
      if config.ipset != w.config.ipset || config.firewall != w.config.firewall || !reconciled then NO_EFFECT
      else Passing(SentTo(w.agg, config.exceptions), config.exceptions, lifted, applied)
    case Restart(lifted, applied) =>
      var loaded := Loaded(w.config, w.disk, m.now, w'.agg.evictions);
      Passing(SentTo(loaded, w.config.exceptions), w.config.exceptions, lifted, applied)
    case _ => NO_EFFECT
  }

  /** The calls of an effect; the order of removals is the aggregator's choice. */
  ghost predicate Issues(e: Effect, calls: seq<Call>) {
    exists adds, removes ::
      && Lists(adds, e.added) && Lists(removes, e.removed)
      && calls == (if e.rebuilt.Some? then [Rebuilt(e.rebuilt.value)] else []) + Adding(adds) + Removing(removes)
  }

  function Adding(targets: seq<BanTarget>): seq<Call> {
    seq(|targets|, i requires 0 <= i < |targets| => Added(targets[i]))
  }

  function Removing(targets: seq<BanTarget>): seq<Call> {
    seq(|targets|, i requires 0 <= i < |targets| => Removed(targets[i]))
  }

  /** What the calls of an effect amount to. */
  function AfterEffect(k: KernelSet, e: Effect): KernelSet {
    var base := if e.rebuilt.Some? then AfterCall(k, Rebuilt(e.rebuilt.value)) else k;
    WithMatches(base, Keys(e.added)) - Keys(e.removed)
  }

  function WithMatches(k: KernelSet, nets: set<IpNet>): KernelSet {
    map net | net in k.Keys + nets :: if net in nets then Match else k[net]
  }

  lemma {:induction false} AfterAppend(k: KernelSet, a: seq<Call>, b: seq<Call>)
    ensures AfterCalls(k, a + b) == AfterCalls(AfterCalls(k, a), b)
    decreases |a|
  {
    hide AfterCall;
    if a == [] {
      assert a + b == b;
    } else {
      assert (a + b)[1..] == a[1..] + b;
      AfterAppend(AfterCall(k, a[0]), a[1..], b);
    }
  }

  function Listing(targets: seq<BanTarget>): set<BanTarget> {
    set t | t in targets
  }

  lemma {:induction false} AfterAdding(k: KernelSet, targets: seq<BanTarget>)
    ensures AfterCalls(k, Adding(targets)) == WithMatches(k, Keys(Listing(targets)))
    decreases |targets|
  {
    hide Canonical, Keys, WithMatches, Listing;
    FirstListed(targets);
    if targets == [] {
      NoMatches(k);
    } else {
      var t, rest := targets[0], targets[1..];
      assert Adding(targets)[1..] == Adding(rest);
      AfterAdding(k[Key(t) := Match], rest);
      OneMoreMatch(k, Key(t), Keys(Listing(rest)));
    }
  }

  lemma FirstListed(targets: seq<BanTarget>)
    ensures Keys(Listing(targets)) == if targets == [] then {} else {Key(targets[0])} + Keys(Listing(targets[1..]))
  {
    hide Canonical;
    if targets != [] {
      assert Listing(targets) == {targets[0]} + Listing(targets[1..]);
    }
  }

  lemma NoMatches(k: KernelSet)
    ensures WithMatches(k, {}) == k
  {
  }

  lemma OneMoreMatch(k: KernelSet, net: IpNet, nets: set<IpNet>)
    ensures WithMatches(k[net := Match], nets) == WithMatches(k, {net} + nets)
  {
  }

  lemma {:induction false} AfterRemoving(k: KernelSet, targets: seq<BanTarget>)
    ensures AfterCalls(k, Removing(targets)) == k - Keys(Listing(targets))
    decreases |targets|
  {
    hide Canonical, Keys, Listing;
    FirstListed(targets);
    if targets != [] {
      assert Removing(targets)[1..] == Removing(targets[1..]);
      AfterRemoving(k - {Key(targets[0])}, targets[1..]);
    }
  }

  /** Whatever the order of the removals, the kernel set afterwards is the same. */
  lemma CallsAmountToEffect(k: KernelSet, e: Effect, calls: seq<Call>)
    requires Issues(e, calls)
    ensures AfterCalls(k, calls) == AfterEffect(k, e)
  {
    hide Keys, AfterCalls, AfterCall, Adding, Removing, WithMatches;
    var adds, removes :|
      && Lists(adds, e.added) && Lists(removes, e.removed)
      && calls == (if e.rebuilt.Some? then [Rebuilt(e.rebuilt.value)] else []) + Adding(adds) + Removing(removes);
    assert Listing(adds) == e.added && Listing(removes) == e.removed;
    var first := if e.rebuilt.Some? then [Rebuilt(e.rebuilt.value)] else [];
    AfterAppend(k, first + Adding(adds), Removing(removes));
    AfterAppend(k, first, Adding(adds));
    FirstCall(k, e);
    var base := AfterCalls(k, first);
    AfterAdding(base, adds);
    AfterRemoving(AfterCalls(base, Adding(adds)), removes);
  }

  lemma FirstCall(k: KernelSet, e: Effect)
    ensures AfterCalls(k, if e.rebuilt.Some? then [Rebuilt(e.rebuilt.value)] else [])
         == if e.rebuilt.Some? then AfterCall(k, Rebuilt(e.rebuilt.value)) else k
  {
    hide AfterCall;
  }

  // ---------- What a move does to bans and entries ----------

  /** The effect is that of the move: it turns the entries told apart by target into those
      after it, every ban after it was there or was added, and none of the removed is a ban. */
  ghost predicate Explains(w: World, e: Effect, w': World) {
    && w'.entries == (if e.rebuilt.Some? then e.rebuilt.value.targets else w.entries) + e.added - e.removed
    && w'.agg.bans.active.Keys
       <= (if e.rebuilt.Some? then e.rebuilt.value.targets else w.agg.bans.active.Keys) + e.added
    && e.added <= w'.agg.bans.active.Keys && w'.agg.bans.active.Keys !! e.removed
    && (e.rebuilt.Some? ==> e.rebuilt.value.exceptions == w'.config.exceptions && e.added == {}
                            && forall t | t in e.removed :: IsExcepted(t, w'.config.exceptions))
    && (e.rebuilt.None? ==> w'.config.exceptions == w.config.exceptions && e.removed <= w.agg.bans.active.Keys)
  }

  lemma PlacingExplains(cfg: Config, before: Bans, entries: set<BanTarget>, target: BanTarget, ban: ActiveBan,
                        forgotten: set<IpNet>, after: Bans, entries': set<BanTarget>, failed: set<IpAddr>)
    requires BansAgree(before)
    requires PlaceStep(cfg, before, entries, target, ban, forgotten, after, entries', Success(failed))
    ensures
      var e := Placing(before, {target}, failed);
      && entries' == entries + e.added - e.removed
      && after.active.Keys <= before.active.Keys + e.added && target in after.active
      && after.active.Keys !! e.removed && e.removed <= before.active.Keys
  {
    hide BansAgree, Placed, TrimChoice, CoveredBySubnet, CoveredIps, Placing, IpTargets;
    PlacedActive(cfg, before, target, ban, forgotten);
    PlacingRemoves(before, target, failed);
    FewerTargets(CoveredIps(before.ips, target), failed);
  }

  lemma PlacingRemoves(bans: Bans, target: BanTarget, failed: set<IpAddr>)
    ensures Placing(bans, {target}, failed)
         == Effect(None, {target}, IpTargets(CoveredIps(bans.ips, target) - failed))
  {
    hide CoveredIps;
    assert Placing(bans, {target}, failed).removed == IpTargets(CoveredIps(bans.ips, target) - failed);
  }

  lemma FewerTargets(ips: set<IpAddr>, failed: set<IpAddr>)
    ensures IpTargets(ips - failed) <= IpTargets(ips)
  {
  }

  lemma NothingReported(r: Result<RecordResult, BackendError>)
    requires r == Success(RecordResult([], {}))
    ensures ReportedTargets(r) == {}
  {
  }

  lemma NothingPlaced(w: World, w': World, failed: set<IpAddr>)
    requires w'.config == w.config && w'.entries == w.entries && w'.agg.bans.active == w.agg.bans.active
    ensures Placing(w.agg.bans, {}, failed) == NO_EFFECT && Explains(w, NO_EFFECT, w')
  {
  }

  lemma RefusedPlacesNothing(cfg: Config, before: Bans, entries: set<BanTarget>, target: BanTarget, ban: ActiveBan,
                             forgotten: set<IpNet>, after: Bans, entries': set<BanTarget>, error: BackendError)
    requires PlaceStep(cfg, before, entries, target, ban, forgotten, after, entries', Failure(error))
    ensures after == before && entries' == entries
  {
  }

  lemma HitExplains(w: World, m: Move, w': World)
    requires m.event.Hit? && HitStep(w, m.event, m.now, m.due, w') && TablesAgree(w)
    ensures Explains(w, EffectOf(w, m, w'), w')
  {
    var e, cfg := m.event, w.config.aggregation;
    hide RecordStep, PlaceStep, BansAgree, ScoresAgree, AttemptOf, IsException, SubnetFor, Saves, ReportedTargets;
    if IsException(e.ip, w.config.exceptions) {
      NothingReported(e.recorded);
      NothingPlaced(w, w', {});
    } else {
      var attempt := RecordAttempts(cfg, w.agg, w.entries, e.ip, e.weight, e.rule, m.now, e.evicted,
                                    w'.agg, w'.entries, e.recorded);
      RecordTargets(cfg, w.agg, w.entries, e.ip, e.weight, e.rule, m.now, e.evicted, w'.agg, w'.entries, e.recorded);
      if attempt.Some? && e.recorded.Success? {
        PlacingExplains(cfg, w.agg.bans, w.entries, attempt.value.target, attempt.value.ban, e.evicted.reputation,
                        w'.agg.bans, w'.entries, e.recorded.value.cleanupErrors);
      } else {
        if attempt.Some? {
          RefusedPlacesNothing(cfg, w.agg.bans, w.entries, attempt.value.target, attempt.value.ban,
                               e.evicted.reputation, w'.agg.bans, w'.entries, e.recorded.error);
        }
        NothingPlaced(w, w', CleanupErrors(e.recorded));
      }
    }
  }

  lemma AddBanExplains(w: World, m: Move, w': World)
    requires m.event.AddBan? && AddBanMove(w, m.event, m.now, w') && TablesAgree(w)
    ensures Explains(w, EffectOf(w, m, w'), w')
  {
    var e, cfg := m.event, w.config.aggregation;
    hide PlaceStep, BansAgree, ScoresAgree, Saves, Placing, CoveredBySubnet;
    if e.added.Success? {
      var ban := ManualBan(cfg, w.agg.bans, e.target, e.seconds, e.reason, m.now);
      PlacingExplains(cfg, w.agg.bans, w.entries, e.target, ban, e.forgotten, w'.agg.bans, w'.entries, e.failed);
      PlacingAdds(w.agg.bans, {e.target}, e.failed);
    } else {
      FailureChangesNothing(cfg, w, e, w');
      NothingPlaced(w, w', {});
    }
  }

  lemma PlacingAdds(bans: Bans, added: set<BanTarget>, failed: set<IpAddr>)
    ensures Placing(bans, added, failed).added == added && Placing(bans, added, failed).rebuilt == None
  {
  }

  lemma FailureChangesNothing(cfg: Config, w: World, e: Event, w': World)
    requires cfg == w.config.aggregation && e.AddBan? && e.added.Failure? && exists now :: AddBanMove(w, e, now, w')
    ensures w'.config == w.config && w'.agg.bans == w.agg.bans && w'.entries == w.entries
  {
    hide CoveredBySubnet;
  }

  lemma CleanupExplains(w: World, m: Move, w': World)
    requires m.event.Cleanup? && CleanupMove(w, m.event, m.now, w')
    ensures Explains(w, EffectOf(w, m, w'), w')
  {
    hide LiveScores, Saves;
    assert Expired(w.agg.bans, m.now) <= w.agg.bans.active.Keys;
  }

  lemma PassExplains(cfg: Config, w: World, s: AggState, exceptions: seq<IpNet>, lifted: set<BanTarget>, w': World,
                     applied: Result<set<BanTarget>, BackendError>, bans: Bans)
    requires applied.Success? && w'.config.exceptions == exceptions && w'.agg.bans == bans
    requires exists after: AggState :: after.bans == bans
               && ApplyExceptionsStep(cfg, s, SentTo(s, exceptions), exceptions, lifted, after, w'.entries, applied)
    ensures Explains(w, Passing(SentTo(s, exceptions), exceptions, lifted, applied), w')
  {
    hide IsExcepted, UnexceptedScores;
  }

  lemma UpdateExplains(w: World, m: Move, w': World)
    requires m.event.Update? && UpdateMove(w, m.event, w') && PassCompletes(m.event)
    ensures Explains(w, EffectOf(w, m, w'), w')
  {
    var e := m.event;
    hide ApplyExceptionsStep, SentTo, Regroup, Saves, Passing;
    if e.config.ipset == w.config.ipset && e.config.firewall == w.config.firewall && e.reconciled {
      PassExplains(w.config.aggregation, w, w.agg, e.config.exceptions, e.lifted, w', e.applied, w'.agg.bans);
    } else {
      NothingPlaced(w, w', {});
    }
  }

  lemma RestartExplains(w: World, m: Move, w': World)
    requires m.event.Restart? && Starts(w.config, w.disk, m.now, m.event.lifted, m.event.applied, w')
    requires m.event.applied.Success?
    ensures Explains(w, EffectOf(w, m, w'), w')
  {
    hide ApplyExceptionsStep, SentTo, Loaded, Saves, Passing;
    var loaded := Loaded(w.config, w.disk, m.now, w'.agg.evictions);
    PassExplains(w.config.aggregation, w, loaded, w.config.exceptions, m.event.lifted, w', m.event.applied,
                 w'.agg.bans);
  }

  lemma StepExplains(w: World, m: Move, w': World)
    requires Step(w, m, w') && TablesAgree(w) && PassCompletes(m.event)
    ensures Explains(w, EffectOf(w, m, w'), w')
  {
    hide HitStep, CleanupMove, AddBanMove, ResetMove, UpdateMove, Starts, TablesAgree, Explains;
    match m.event
    case Hit(_, _, _, _, _) => HitExplains(w, m, w');
    case AddBan(_, _, _, _, _, _) => AddBanExplains(w, m, w');
    case Cleanup(_, _) => CleanupExplains(w, m, w');
    case Reset(target) => ResetExplains(w, m, w');
    case Update(_, _, _, _) => UpdateExplains(w, m, w');
    case Restart(_, _) => RestartExplains(w, m, w');
    case Reconcile(ok) => ReconcileExplains(w, m, w');
    case Persist => NothingPlaced(w, w', {});
    case Idle => NothingPlaced(w, w', {});
  }

  lemma ResetExplains(w: World, m: Move, w': World)
    requires m.event.Reset? && ResetMove(w, m.event, w')
    ensures Explains(w, EffectOf(w, m, w'), w')
  {
    hide Regroup, Saves;
    NothingPlaced(w, w', {});
  }

  lemma ReconcileExplains(w: World, m: Move, w': World)
    requires m.event.Reconcile? && Step(w, m, w')
    ensures Explains(w, EffectOf(w, m, w'), w')
  {
  }

  // ---------- Every ban's entry ----------

  /** Every ban has its entry, and it is for matching addresses. */
  ghost predicate Keyed(k: KernelSet, bans: Bans) {
    forall t | t in bans.active :: Key(t) in k && k[Key(t)] == Match
  }

  /** Every other entry for matching addresses is one told apart by target; every `nomatch` entry is
      an exception's. */
  ghost predicate NothingElse(k: KernelSet, w: World) {
    forall net | net in k ::
      if k[net] == Match then net in Keys(w.entries) else net in ExceptionKeys(w.config.exceptions)
  }

  /** A removed target shares its network, however written, with a ban that stays or is placed. */
  ghost predicate TakesAnothersEntry(removed: set<BanTarget>, bans: Bans) {
    exists t, u | t in removed && u in bans.active :: Key(t) == Key(u)
  }

  lemma KeyIn(t: BanTarget, targets: set<BanTarget>)
    requires t in targets
    ensures Key(t) in Keys(targets)
  {
  }

  /** One lifting of any bans from a set in which all have entries: some ban left without an entry
      if and only if one lifted is of the same network as one that stays. */
  lemma LiftingKeepsOthersExactlyWhen(k: KernelSet, bans: Bans, lifted: set<BanTarget>)
    requires Keyed(k, bans)
    ensures Keyed(k - Keys(lifted), WithoutTargets(bans, lifted))
       <==> !TakesAnothersEntry(lifted, WithoutTargets(bans, lifted))
  {
    hide Canonical;
    var after := WithoutTargets(bans, lifted);
    if t, u :| t in lifted && u in after.active && Key(t) == Key(u) {
      KeyIn(t, lifted);
    }
    if !TakesAnothersEntry(lifted, after) {
      forall u | u in after.active ensures Key(u) !in Keys(lifted) {
        forall t | t in lifted ensures Key(t) != Key(u) {
        }
      }
    }
  }

  /** A set built of unexcepted targets has all their entries. */
  lemma BuiltIsKeyed(targets: set<BanTarget>, exceptions: seq<IpNet>, t: BanTarget)
    requires t in targets && !IsExcepted(t, exceptions)
    ensures Key(t) in Built(targets, exceptions) && Built(targets, exceptions)[Key(t)] == Match
  {
    KeyIn(t, targets);
    if Key(t) in ExceptionKeys(exceptions) {
      var e :| e in exceptions && Canonical(e) == Key(t);
      SameNetworkCovers(e, t);
      ExceptedIsCovered(t, exceptions);
    }
  }

  lemma SameNetworkCovers(e: IpNet, t: BanTarget)
    requires Canonical(e) == Key(t)
    ensures Covers(e, NetworkOf(t))
  {
    var net := NetworkOf(t);
    assert Contains(net, net.addr);
    CanonicalContains(net, net.addr);
    CanonicalContains(e, net.addr);
  }

  /** After a move every ban has its entry if and only if the move took no other ban's entry. */
  lemma EffectKeepsKeyedExactlyWhen(k: KernelSet, w: World, e: Effect, w': World)
    requires Keyed(k, w.agg.bans) && Explains(w, e, w') && ExceptionsHold(w')
    ensures Keyed(AfterEffect(k, e), w'.agg.bans) <==> !TakesAnothersEntry(e.removed, w'.agg.bans)
  {
    hide Canonical, Built, IsExcepted, ScoresUnexcepted, IsCovered;
    var base := if e.rebuilt.Some? then Built(e.rebuilt.value.targets, e.rebuilt.value.exceptions) else k;
    forall u | u in w'.agg.bans.active
      ensures Key(u) in WithMatches(base, Keys(e.added)) && WithMatches(base, Keys(e.added))[Key(u)] == Match
    {
      if u in e.added {
        KeyIn(u, e.added);
      } else if e.rebuilt.Some? {
        BuiltIsKeyed(e.rebuilt.value.targets, e.rebuilt.value.exceptions, u);
      }
    }
    if t, u :| t in e.removed && u in w'.agg.bans.active && Key(t) == Key(u) {
      KeyIn(t, e.removed);
    }
    if !TakesAnothersEntry(e.removed, w'.agg.bans) {
      forall u | u in w'.agg.bans.active ensures Key(u) !in Keys(e.removed) {
        forall t | t in e.removed ensures Key(t) != Key(u) {
        }
      }
    }
  }

  lemma EffectKeepsNothingElse(k: KernelSet, w: World, e: Effect, w': World)
    requires NothingElse(k, w) && Explains(w, e, w')
    ensures NothingElse(AfterEffect(k, e), w')
  {
    hide Canonical;
    forall net | net in AfterEffect(k, e)
      ensures if AfterEffect(k, e)[net] == Match then net in Keys(w'.entries)
              else net in ExceptionKeys(w'.config.exceptions)
    {
      if AfterEffect(k, e)[net] == Match {
        var t: BanTarget;
        if net in Keys(e.added) {
          t :| t in e.added && Key(t) == net;
        } else if e.rebuilt.Some? {
          t :| t in e.rebuilt.value.targets && Key(t) == net;
        } else {
          t :| t in w.entries && Key(t) == net;
        }
        if t in e.removed {
          KeyIn(t, e.removed);
        }
        KeyIn(t, w'.entries);
      }
    }
  }

  // ---------- Whole runs ----------

  /** The kernel sets alongside a run: each move's calls in some order. */
  ghost predicate KernelRun(worlds: seq<World>, moves: seq<Move>, kernels: seq<KernelSet>, calls: seq<seq<Call>>) {
    && |worlds| == |moves| + 1 == |kernels| && |calls| == |moves|
    && forall j | 0 <= j < |moves| ::
         && Issues(EffectOf(worlds[j], moves[j], worlds[j + 1]), calls[j])
         && kernels[j + 1] == AfterCalls(kernels[j], calls[j])
  }

  /** Move `j` took the entry of another ban of the same network. */
  ghost predicate Takes(worlds: seq<World>, moves: seq<Move>, j: nat)
    requires j < |moves| && |worlds| == |moves| + 1
  {
    TakesAnothersEntry(EffectOf(worlds[j], moves[j], worlds[j + 1]).removed, worlds[j + 1].agg.bans)
  }

  /** Exception passes complete, and manual bans passed the allowlist check. */
  ghost predicate Supervised(worlds: seq<World>, moves: seq<Move>) {
    && |worlds| == |moves| + 1
    && forall j | 0 <= j < |moves| :: Guarded(worlds[j], moves[j]) && PassCompletes(moves[j].event)
  }

  lemma OneKernelMove(worlds: seq<World>, moves: seq<Move>, kernels: seq<KernelSet>, calls: seq<seq<Call>>, j: nat)
    requires KernelRun(worlds, moves, kernels, calls) && IsRun(worlds, moves) && Supervised(worlds, moves)
    requires j < |moves| && TablesAgree(worlds[0]) && ExceptionsHold(worlds[0])
    ensures
      var e := EffectOf(worlds[j], moves[j], worlds[j + 1]);
      && kernels[j + 1] == AfterEffect(kernels[j], e)
      && Explains(worlds[j], e, worlds[j + 1]) && ExceptionsHold(worlds[j + 1])
  {
    hide Step, EffectOf, Issues, Explains, AfterEffect, AfterCalls, Guarded, ExceptionsHold, TablesAgree, PassCompletes;
    RunAgrees(worlds, moves, j);
    RunKeepsExceptions(worlds, moves, j + 1);
    StepExplains(worlds[j], moves[j], worlds[j + 1]);
    CallsAmountToEffect(kernels[j], EffectOf(worlds[j], moves[j], worlds[j + 1]), calls[j]);
  }

  lemma {:induction false} KeyedUntilTaken(worlds: seq<World>, moves: seq<Move>, kernels: seq<KernelSet>,
                                           calls: seq<seq<Call>>, i: nat)
    requires KernelRun(worlds, moves, kernels, calls) && IsRun(worlds, moves) && Supervised(worlds, moves)
    requires TablesAgree(worlds[0]) && ExceptionsHold(worlds[0]) && Keyed(kernels[0], worlds[0].agg.bans)
    requires i < |worlds| && forall j | 0 <= j < i :: !Takes(worlds, moves, j)
    ensures Keyed(kernels[i], worlds[i].agg.bans)
  {
    hide Step, EffectOf, KernelRun, Explains, AfterEffect, Supervised, Keyed, TakesAnothersEntry;
    hide ExceptionsHold, TablesAgree;
    SameLengths(worlds, moves, kernels, calls);
    if i > 0 {
      KeyedUntilTaken(worlds, moves, kernels, calls, i - 1);
      OneKernelMove(worlds, moves, kernels, calls, i - 1);
      assert !Takes(worlds, moves, i - 1);
      EffectKeepsKeyedExactlyWhen(kernels[i - 1], worlds[i - 1],
                                  EffectOf(worlds[i - 1], moves[i - 1], worlds[i]), worlds[i]);
    }
  }

  /** Every ban has its entry in every world of a supervised run if and only if no move lifted a
      ban of the same network, however written, as a ban that stays or is placed. */
  lemma RunKeyedExactlyWhen(worlds: seq<World>, moves: seq<Move>, kernels: seq<KernelSet>, calls: seq<seq<Call>>)
    requires KernelRun(worlds, moves, kernels, calls) && IsRun(worlds, moves) && Supervised(worlds, moves)
    requires TablesAgree(worlds[0]) && ExceptionsHold(worlds[0]) && Keyed(kernels[0], worlds[0].agg.bans)
    ensures (forall i | 0 <= i < |worlds| :: Keyed(kernels[i], worlds[i].agg.bans))
       <==> forall j | 0 <= j < |moves| :: !Takes(worlds, moves, j)
  {
    hide Step, EffectOf, KernelRun, Explains, AfterEffect, Supervised, Keyed, TakesAnothersEntry;
    hide ExceptionsHold, TablesAgree;
    SameLengths(worlds, moves, kernels, calls);
    if forall j | 0 <= j < |moves| :: !Takes(worlds, moves, j) {
      forall i | 0 <= i < |worlds| ensures Keyed(kernels[i], worlds[i].agg.bans) {
        KeyedUntilTaken(worlds, moves, kernels, calls, i);
      }
    }
    if forall i | 0 <= i < |worlds| :: Keyed(kernels[i], worlds[i].agg.bans) {
      forall j | 0 <= j < |moves| ensures !Takes(worlds, moves, j) {
        OneKernelMove(worlds, moves, kernels, calls, j);
        assert Keyed(kernels[j], worlds[j].agg.bans) && Keyed(kernels[j + 1], worlds[j + 1].agg.bans);
        EffectKeepsKeyedExactlyWhen(kernels[j], worlds[j], EffectOf(worlds[j], moves[j], worlds[j + 1]), worlds[j + 1]);
      }
    }
  }

  lemma SameLengths(worlds: seq<World>, moves: seq<Move>, kernels: seq<KernelSet>, calls: seq<seq<Call>>)
    requires KernelRun(worlds, moves, kernels, calls)
    ensures |kernels| == |worlds| == |moves| + 1
  {
  }

  lemma {:induction false} RunHoldsNothingElse(worlds: seq<World>, moves: seq<Move>, kernels: seq<KernelSet>,
                                               calls: seq<seq<Call>>, i: nat)
    requires KernelRun(worlds, moves, kernels, calls) && IsRun(worlds, moves) && Supervised(worlds, moves)
    requires TablesAgree(worlds[0]) && ExceptionsHold(worlds[0]) && NothingElse(kernels[0], worlds[0])
    requires i < |worlds|
    ensures NothingElse(kernels[i], worlds[i])
  {
    hide Step, EffectOf, KernelRun, Explains, AfterEffect, Supervised, NothingElse, ExceptionsHold, TablesAgree;
    SameLengths(worlds, moves, kernels, calls);
    if i > 0 {
      RunHoldsNothingElse(worlds, moves, kernels, calls, i - 1);
      OneKernelMove(worlds, moves, kernels, calls, i - 1);
      EffectKeepsNothingElse(kernels[i - 1], worlds[i - 1],
                             EffectOf(worlds[i - 1], moves[i - 1], worlds[i]), worlds[i]);
    }
  }

  /** A set with every ban's entry drops each banned address that no exception contains. */
  lemma KeyedDrops(k: KernelSet, w: World, ip: IpAddr)
    requires Keyed(k, w.agg.bans) && NothingElse(k, w)
    requires BannedBy(w.agg.bans.active.Keys, ip) && !IsException(ip, w.config.exceptions)
    ensures Drops(k, ip)
  {
    var t :| t in w.agg.bans.active.Keys && Contains(NetworkOf(t), ip);
    CanonicalContains(NetworkOf(t), ip);
    hide Contains, Canonical;
    var longest := LongestMatch(k, ip, Key(t));
    forall e | e in w.config.exceptions ensures Canonical(e) != longest {
      CanonicalContains(e, ip);
    }
  }

  /** Whatever a set drops lies in one of its targets. */
  lemma DropsOnlyEntries(k: KernelSet, w: World, ip: IpAddr)
    requires NothingElse(k, w) && Drops(k, ip)
    ensures BannedBy(w.entries, ip)
  {
    hide Contains, Canonical;
    var net :| net in k && Contains(net, ip) && k[net] == Match;
    var t :| t in w.entries && Canonical(NetworkOf(t)) == net;
    CanonicalContains(NetworkOf(t), ip);
  }

  // ---------- Bans written in one way ----------

  /** A subnet is written with its host bits zero, and is not a single address. */
  predicate WellWritten(t: BanTarget) {
    t.Subnet? ==> t.net == Canonical(t.net) && !IsHostNetwork(t.net)
  }

  ghost predicate BansWellWritten(bans: Bans) {
    forall t | t in bans.active :: WellWritten(t)
  }

  ghost predicate FileWellWritten(disk: Option<PersistentState>) {
    disk.Some? ==> forall ban | ban in disk.value.activeBans :: ban.network == Canonical(ban.network)
  }

  predicate PromotesSubnets(config: WorkerConfig) {
    config.aggregation.ipv4Prefix < 32 && config.aggregation.ipv6Prefix < 128
  }

  lemma HostIsCanonical(ip: IpAddr)
    ensures Canonical(HostNetwork(ip)) == HostNetwork(ip)
  {
    assert ip.bits[..|ip.bits|] == ip.bits;
    assert Truncated(ip, Width(ip.family)).bits == ip.bits;
  }

  lemma CanonicalTwice(ip: IpAddr, prefix: nat)
    requires prefix <= Width(ip.family)
    ensures Canonical(NetworkAt(ip, prefix)) == NetworkAt(ip, prefix)
  {
    var once := Truncated(ip, prefix);
    var twice := Truncated(once, prefix);
    assert once.bits == twice.bits;
  }

  /** Well-written targets with one entry are one target. */
  lemma OwnKey(t: BanTarget, u: BanTarget)
    requires WellWritten(t) && WellWritten(u) && Key(t) == Key(u)
    ensures t == u
  {
    if t.Ip? {
      HostIsCanonical(t.ip);
    }
    if u.Ip? {
      HostIsCanonical(u.ip);
    }
  }

  lemma EffectIsWellWritten(w: World, m: Move, w': World)
    requires Step(w, m, w') && TablesAgree(w) && PromotesSubnets(w.config)
    requires BansWellWritten(w.agg.bans) && FileWellWritten(w.disk)
    requires m.event.AddBan? ==> WellWritten(m.event.target)
    ensures
      var e := EffectOf(w, m, w');
      && (forall t | t in e.added :: WellWritten(t))
      && (e.rebuilt.Some? ==> forall t | t in e.rebuilt.value.targets :: WellWritten(t))
  {
    hide HitStep, CleanupMove, AddBanMove, ResetMove, UpdateMove, Starts, TablesAgree, WellWritten, ReportedTargets;
    hide Loaded;
    match m.event
    case Hit(ip, weight, rule, evicted, recorded) => ReportedAreWellWritten(w, m, w');
    case Restart(_, _) => LoadedAreWellWritten(w.config, w.disk, m.now, w'.agg.evictions);
    case _ =>
  }

  lemma ReportedAreWellWritten(w: World, m: Move, w': World)
    requires m.event.Hit? && HitStep(w, m.event, m.now, m.due, w') && PromotesSubnets(w.config)
    ensures forall t | t in ReportedTargets(m.event.recorded) :: WellWritten(t)
  {
    var e, cfg := m.event, w.config.aggregation;
    CanonicalTwice(e.ip, SubnetFor(cfg, e.ip).prefix);
    hide RecordStep, PlaceStep, AttemptOf, IsException, Saves, Canonical, Truncated;
    assert WellWritten(Subnet(SubnetFor(cfg, e.ip)));
    hide WellWritten, SubnetFor;
    if !IsException(e.ip, w.config.exceptions) {
      var attempt := RecordAttempts(cfg, w.agg, w.entries, e.ip, e.weight, e.rule, m.now, e.evicted,
                                    w'.agg, w'.entries, e.recorded);
      RecordTargets(cfg, w.agg, w.entries, e.ip, e.weight, e.rule, m.now, e.evicted, w'.agg, w'.entries, e.recorded);
      AddressesAreWellWritten(e.ip);
    }
  }

  lemma AddressesAreWellWritten(ip: IpAddr)
    ensures WellWritten(Ip(ip))
  {
  }

  lemma LoadedAreWellWritten(config: WorkerConfig, disk: Option<PersistentState>, now: int, evictions: u64)
    requires FileWellWritten(disk)
    ensures BansWellWritten(Loaded(config, disk, now, evictions).bans)
  {
    if config.persists && disk.Some? && disk.value.schemaVersion == SCHEMA_VERSION {
      hide Absorb, RestoredScores, AddRules, Canonical, Contains;
      var list, cap := disk.value.activeBans, config.aggregation.maxActiveBans;
      var subnets := Absorb(map[], list, PickSubnet(now), cap);
      AbsorbsOnly(map[], list, PickSubnet(now), cap);
      AbsorbsOnly(subnets, list, PickIp(now, NetsIn(subnets.Keys)), cap);
    }
  }

  lemma SavedIsWellWritten(s: AggState, file: PersistentState)
    requires BansAgree(s.bans) && BansWellWritten(s.bans) && Saves(s, file)
    ensures FileWellWritten(Some(file))
  {
    hide CoveredBySubnet, Canonical, Contains;
    forall ban | ban in file.activeBans ensures ban.network == Canonical(ban.network) {
      var t := RecordTarget(s.bans, ban);
      if t.Ip? {
        HostIsCanonical(t.ip);
      }
    }
  }

  lemma StepKeepsWellWritten(w: World, m: Move, w': World)
    requires Step(w, m, w') && TablesAgree(w) && PromotesSubnets(w.config) && PassCompletes(m.event)
    requires BansWellWritten(w.agg.bans) && FileWellWritten(w.disk)
    requires m.event.AddBan? ==> WellWritten(m.event.target)
    ensures BansWellWritten(w'.agg.bans) && FileWellWritten(w'.disk)
  {
    EffectIsWellWritten(w, m, w');
    StepExplains(w, m, w');
    StepKeepsAgreement(w, m, w');
    DiskSavedOrSame(w, m, w');
    hide Step, EffectOf, WellWritten, Saves, FileWellWritten;
    if w'.disk != w.disk {
      SavedIsWellWritten(w'.agg, w'.disk.value);
    }
  }

  lemma DiskSavedOrSame(w: World, m: Move, w': World)
    requires Step(w, m, w')
    ensures w'.disk == w.disk || (w'.disk.Some? && Saves(w'.agg, w'.disk.value))
  {
    hide RecordStep, CleanupStep, AddManualStep, ApplyExceptionsStep, ResetDone, IsException, Saves, Loaded, SentTo;
  }

  /** No move over well-written bans takes another ban's entry. */
  lemma WellWrittenTakeNothing(w: World, e: Effect, w': World)
    requires Explains(w, e, w') && BansWellWritten(w.agg.bans) && BansWellWritten(w'.agg.bans) && ExceptionsHold(w')
    ensures !TakesAnothersEntry(e.removed, w'.agg.bans)
  {
    hide Key, WellWritten, IsExcepted, ScoresUnexcepted, IsCovered;
    forall t, u | t in e.removed && u in w'.agg.bans.active ensures Key(t) != Key(u) {
      if Key(t) == Key(u) {
        if e.rebuilt.Some? {
          SameKeyBothExcepted(u, t, w'.config.exceptions);
        } else {
          OwnKey(t, u);
        }
      }
    }
  }

  lemma SameKeyBothExcepted(t: BanTarget, u: BanTarget, exceptions: seq<IpNet>)
    requires Key(t) == Key(u) && IsExcepted(u, exceptions)
    ensures IsExcepted(t, exceptions)
  {
    SameKeySameException(t, u, exceptions);
  }

  /** The subnets promoted are no single addresses, and manual bans are written with their host
      bits zero. */
  ghost predicate WrittenWell(worlds: seq<World>, moves: seq<Move>) {
    && |worlds| == |moves| + 1
    && forall j | 0 <= j < |moves| ::
         PromotesSubnets(worlds[j].config) && (moves[j].event.AddBan? ==> WellWritten(moves[j].event.target))
  }

  lemma {:induction false} RunStaysWellWritten(worlds: seq<World>, moves: seq<Move>, i: nat)
    requires IsRun(worlds, moves) && Supervised(worlds, moves) && WrittenWell(worlds, moves) && i < |worlds|
    requires TablesAgree(worlds[0]) && BansWellWritten(worlds[0].agg.bans) && FileWellWritten(worlds[0].disk)
    ensures BansWellWritten(worlds[i].agg.bans) && FileWellWritten(worlds[i].disk)
  {
    hide Step, TablesAgree, BansWellWritten, FileWellWritten, PassCompletes, Guarded, WellWritten, PromotesSubnets;
    if i > 0 {
      RunStaysWellWritten(worlds, moves, i - 1);
      RunAgrees(worlds, moves, i - 1);
      StepKeepsWellWritten(worlds[i - 1], moves[i - 1], worlds[i]);
    }
  }

  lemma RunTakesNothing(worlds: seq<World>, moves: seq<Move>, kernels: seq<KernelSet>, calls: seq<seq<Call>>)
    requires KernelRun(worlds, moves, kernels, calls) && IsRun(worlds, moves) && Supervised(worlds, moves)
    requires WrittenWell(worlds, moves) && TablesAgree(worlds[0]) && ExceptionsHold(worlds[0])
    requires BansWellWritten(worlds[0].agg.bans) && FileWellWritten(worlds[0].disk)
    ensures forall j | 0 <= j < |moves| :: !Takes(worlds, moves, j)
  {
    hide Step, EffectOf, KernelRun, Explains, AfterEffect, Supervised, TakesAnothersEntry, BansWellWritten;
    hide ExceptionsHold, TablesAgree, FileWellWritten, WrittenWell;
    forall j | 0 <= j < |moves| ensures !Takes(worlds, moves, j) {
      OneKernelMove(worlds, moves, kernels, calls, j);
      RunStaysWellWritten(worlds, moves, j);
      RunStaysWellWritten(worlds, moves, j + 1);
      WellWrittenTakeNothing(worlds[j], EffectOf(worlds[j], moves[j], worlds[j + 1]), worlds[j + 1]);
    }
  }

  // ---------- What is dropped, over whole runs ----------

  /** Tables, file and kernel set agree about well-written bans that respect the exceptions. */
  ghost predicate InStep(k: KernelSet, w: World) {
    && TablesAgree(w) && ExceptionsHold(w) && w.entries == w.agg.bans.active.Keys
    && Keyed(k, w.agg.bans) && NothingElse(k, w)
    && BansWellWritten(w.agg.bans) && FileWellWritten(w.disk)
  }

  /** In every world of a supervised run whose bans are written well: every ban has its kernel
      entry, every banned address that no exception contains is dropped, and whatever is dropped
      is banned or an address whose removal failed when a subnet around it was banned. */
  lemma KernelFollowsBans(worlds: seq<World>, moves: seq<Move>, kernels: seq<KernelSet>, calls: seq<seq<Call>>,
                          i: nat, ip: IpAddr)
    requires KernelRun(worlds, moves, kernels, calls) && IsRun(worlds, moves)
    requires Supervised(worlds, moves) && WrittenWell(worlds, moves)
    requires InStep(kernels[0], worlds[0]) && i < |worlds|
    ensures Keyed(kernels[i], worlds[i].agg.bans)
    ensures IsBanned(worlds[i].agg.bans, ip) && !IsException(ip, worlds[i].config.exceptions) ==> Drops(kernels[i], ip)
    ensures Drops(kernels[i], ip) ==>
      IsBanned(worlds[i].agg.bans, ip) || exists j: nat | j < i :: LeftBehind(worlds, moves, j, Ip(ip))
  {
    SupervisedPasses(worlds, moves);
    hide Step, EffectOf, KernelRun, Supervised, Takes, WrittenWell, BansWellWritten, FileWellWritten, Drops;
    hide Keyed, NothingElse, TablesAgree, ExceptionsHold, IsException, PassCompletes, IsBanned, BannedBy;
    RunTakesNothing(worlds, moves, kernels, calls);
    KeyedUntilTaken(worlds, moves, kernels, calls, i);
    RunHoldsNothingElse(worlds, moves, kernels, calls, i);
    RunAgrees(worlds, moves, i);
    BannedIsBannedBy(worlds[i], ip);
    SameLengths(worlds, moves, kernels, calls);
    if IsBanned(worlds[i].agg.bans, ip) && !IsException(ip, worlds[i].config.exceptions) {
      KeyedDrops(kernels[i], worlds[i], ip);
    }
    if Drops(kernels[i], ip) {
      DropsOnlyEntries(kernels[i], worlds[i], ip);
      RunBacked(worlds, moves, i);
      EntriesAreBansOrLeft(worlds, moves, i, ip);
    }
  }

  lemma SupervisedPasses(worlds: seq<World>, moves: seq<Move>)
    requires Supervised(worlds, moves)
    ensures forall j | 0 <= j < |moves| :: PassCompletes(moves[j].event)
  {
  }

  lemma BannedIsBannedBy(w: World, ip: IpAddr)
    requires TablesAgree(w)
    ensures IsBanned(w.agg.bans, ip) <==> BannedBy(w.agg.bans.active.Keys, ip)
  {
    var bans := w.agg.bans;
    hide ScoresAgree, Contains;
    if ip in bans.ips {
      HostContains(ip, ip);
      assert Ip(ip) in bans.active.Keys;
    }
    if net :| net in bans.nets && Contains(net, ip) {
      assert Subnet(net) in bans.active.Keys;
    }
    if t :| t in bans.active.Keys && Contains(NetworkOf(t), ip) {
      if t.Ip? {
        HostContains(t.ip, ip);
      }
    }
  }

  lemma EntriesAreBansOrLeft(worlds: seq<World>, moves: seq<Move>, i: nat, ip: IpAddr)
    requires IsRun(worlds, moves) && i < |worlds| && BannedBy(worlds[i].entries, ip)
    requires forall t | t in Surplus(worlds[i].agg.bans, worlds[i].entries) ::
               exists j: nat | j < i :: LeftBehind(worlds, moves, j, t)
    ensures BannedBy(worlds[i].agg.bans.active.Keys, ip)
         || exists j: nat | j < i :: LeftBehind(worlds, moves, j, Ip(ip))
  {
    hide Step, Contains, CoveredBySubnet, FailedIn;
    var t :| t in worlds[i].entries && Contains(NetworkOf(t), ip);
    if t !in worlds[i].agg.bans.active.Keys {
      assert t in Surplus(worlds[i].agg.bans, worlds[i].entries);
      var j: nat :| j < i && LeftBehind(worlds, moves, j, t);
      HostContains(t.ip, ip);
    }
  }

  /** The first start, which builds the set of the exceptions alone, leaves all in step. */
  lemma FirstStartInStep(config: WorkerConfig, now: int, w: World)
    requires FirstStart(config, now, w)
    ensures InStep(Built({}, config.exceptions), w)
  {
    FirstStartIsEmpty(config, now, w);
    var lifted :| Starts(config, None, now, lifted, Success(lifted), w);
    var loaded := Loaded(config, None, now, w.agg.evictions);
    ApplyExceptionsUnexcepted(config.aggregation, loaded, SentTo(loaded, config.exceptions), config.exceptions,
                              lifted, w.agg, w.entries, Success(lifted), config.exceptions);
    hide TablesAgree, Saves, Unexcepted, Canonical;
    if w.disk.Some? {
      AgreeingBans(w);
      SavedIsWellWritten(w.agg, w.disk.value);
    }
  }

  lemma AgreeingBans(w: World)
    requires TablesAgree(w)
    ensures BansAgree(w.agg.bans)
  {
  }

  /** So from an empty disk on, through failures, crashes and policy updates. */
  lemma KernelFollowsBansFromStart(config: WorkerConfig, start: int, worlds: seq<World>, moves: seq<Move>,
                                   kernels: seq<KernelSet>, calls: seq<seq<Call>>, i: nat, ip: IpAddr)
    requires KernelRun(worlds, moves, kernels, calls) && IsRun(worlds, moves)
    requires Supervised(worlds, moves) && WrittenWell(worlds, moves) && i < |worlds|
    requires FirstStart(config, start, worlds[0]) && kernels[0] == Built({}, config.exceptions)
    ensures IsBanned(worlds[i].agg.bans, ip) && !IsException(ip, worlds[i].config.exceptions) ==> Drops(kernels[i], ip)
    ensures Drops(kernels[i], ip) ==>
      IsBanned(worlds[i].agg.bans, ip) || exists j: nat | j < i :: LeftBehind(worlds, moves, j, Ip(ip))
  {
    hide Step, EffectOf, KernelRun, Supervised, WrittenWell, InStep, FirstStart, IsException, IsBanned, Drops, Built;
    FirstStartInStep(config, start, worlds[0]);
    KernelFollowsBans(worlds, moves, kernels, calls, i, ip);
  }

  // ---------- Where it fails ----------

  /** Two spellings of 10.0.0.0/24 banned: lifting the first deletes the entry of both, and the
      addresses of the second are no longer dropped. */
  lemma SecondSpellingIsLost()
    ensures
      var (one, two) := Spellings();
      var ban := (net: IpNet) => ActiveBan(net, "manual", "", 0, 60, 0, 1, None);
      var bans := Bans({}, {one, two}, map[Subnet(one) := ban(one), Subnet(two) := ban(two)], map[]);
      var after := Built(bans.active.Keys, []) - Keys({Subnet(one)});
      && one != two && BansAgree(bans) && Keyed(Built(bans.active.Keys, []), bans)
      && Subnet(two) in WithoutTargets(bans, {Subnet(one)}).active
      && IsBanned(WithoutTargets(bans, {Subnet(one)}), one.addr) && !Drops(after, one.addr)
  {
    var (one, two) := Spellings();
    var ban := (net: IpNet) => ActiveBan(net, "manual", "", 0, 60, 0, 1, None);
    var bans := Bans({}, {one, two}, map[Subnet(one) := ban(one), Subnet(two) := ban(two)], map[]);
    SpellingsAgree();
    hide Spellings, Canonical, Contains;
    assert bans.active.Keys == {Subnet(one), Subnet(two)} == SubnetTargets(bans.nets);
    assert Keys(bans.active.Keys) == Keys({Subnet(one)}) == {Canonical(one)};
    assert two in WithoutTargets(bans, {Subnet(one)}).nets;
  }

  /** 10.0.0.0/24 and 10.0.0.1/24. */
  function Spellings(): (IpNet, IpNet) {
    var ten := [false, false, false, false, true, false, true, false];
    (Network(Address(V4, ten + seq(24, _ => false)), 24), Network(Address(V4, ten + seq(23, _ => false) + [true]), 24))
  }

  lemma SpellingsAgree()
    ensures var (one, two) := Spellings();
      one != two && Canonical(one) == Canonical(two) && Contains(one, one.addr) && Contains(two, one.addr)
  {
    var (one, two) := Spellings();
    assert one.addr.bits[31] != two.addr.bits[31];
    assert one.addr.bits[..24] == two.addr.bits[..24];
  }

  /** A promotion to a network of host length deletes the entry it has just added. */
  lemma HostPromotionIsLost(k: KernelSet, bans: Bans, ip: IpAddr)
    requires ip in bans.ips
    ensures Key(Subnet(HostNetwork(ip))) !in AfterEffect(k, Placing(bans, {Subnet(HostNetwork(ip))}, {}))
  {
    hide Canonical;
    HostContains(ip, ip);
    var e := Placing(bans, {Subnet(HostNetwork(ip))}, {});
    assert Ip(ip) in e.removed;
    KeyIn(Ip(ip), e.removed);
  }
}
