/** The worker that owns the aggregator, the backend and the state file.  Each command and each
    part of a poll is one move of the transition system. */
module Worker {
  import opened Wrappers
  import opened Networks
  import opened Counters
  import opened AggregateState
  import opened AggregateSteps
  import opened AggregateInvariants
  import opened Persistence
  import opened Backend
  import opened Aggregation
  import opened WorkerSteps
  import opened WorkerRuns

  /** The state file; a save replaces it whole or fails and leaves it. */
  class StateFile {
    var contents: Option<PersistentState>

    constructor ()
      ensures contents == None
    {
      contents := None;
    }

    method Save(state: PersistentState) returns (ok: bool)
      modifies this
      ensures contents == if ok then Some(state) else old(contents)
    {
      ok := *;
      if ok {
        contents := Some(state);
      }
    }
  }

  /** What one rule made of a log line, and whether the save interval has elapsed by then. */
  datatype RuleMatch = RuleMatch(rule: string, weight: u64, hit: Option<IpAddr>, saveDue: bool)

  /** What a poll finds: which timers have elapsed and the matched lines in order. */
  datatype PollInput = PollInput(reverifyDue: bool, cleanupDue: bool, persistDue: bool, lines: seq<seq<RuleMatch>>)

  function HitsOf(matches: seq<RuleMatch>): seq<RuleMatch> {
    if matches == [] then []
    else (if matches[0].hit.Some? then [matches[0]] else []) + HitsOf(matches[1..])
  }

  /** A hit that ends its line: recorded, and not excepted. */
  predicate Ends(config: WorkerConfig, e: Event)
    requires e.Hit?
  {
    !IsException(e.ip, config.exceptions) && e.recorded.Success?
  }

  /** A new ban is saved at once, a mere score when the timer says so. */
  predicate SavesNow(e: Event, saveDue: bool)
    requires e.Hit? && e.recorded.Success?
  {
    e.recorded.value.transitions != [] || saveDue
  }

  /** The moves try the hits in order, up to and including the first that ends the line. */
  ghost predicate TriesInOrder(config: WorkerConfig, hits: seq<RuleMatch>, moves: seq<Move>) {
    && |moves| <= |hits|
    && (forall i | 0 <= i < |moves| ::
          && moves[i].event.Hit? && hits[i].hit == Some(moves[i].event.ip)
          && hits[i].weight == moves[i].event.weight && hits[i].rule == moves[i].event.rule)
    && (forall i | 0 <= i < |moves| :: Ends(config, moves[i].event) ==> i == |moves| - 1)
    && (forall i | 0 <= i < |moves| :: Ends(config, moves[i].event) ==>
           moves[i].due == SavesNow(moves[i].event, hits[i].saveDue))
    && (|moves| < |hits| ==> |moves| > 0 && Ends(config, moves[|moves| - 1].event))
  }

  /** The moves handle the lines one after the other. */
  ghost predicate LinesTried(config: WorkerConfig, lines: seq<seq<RuleMatch>>, moves: seq<Move>) {
    if lines == [] then moves == [] else
      exists k: nat | k <= |moves| ::
        && LinesTried(config, lines[..|lines| - 1], moves[..k])
        && TriesInOrder(config, HitsOf(lines[|lines| - 1]), moves[k..])
  }

  /** The moves of a poll: reverification when due, then cleanup or else a timed save, then the lines. */
  ghost predicate PollMoves(config: WorkerConfig, input: PollInput, moves: seq<Move>) {
    var k := if input.reverifyDue then 1 else 0;
    && |moves| > k
    && (input.reverifyDue ==> moves[0].event.Reconcile?)
    && (if input.cleanupDue then moves[k].event.Cleanup?
        else moves[k].event == Persist && moves[k].due == input.persistDue)
    && LinesTried(config, input.lines, moves[k + 1..])
  }

  class BanWorker {
    var config: WorkerConfig
    const aggregator: Aggregator
    const backend: BanBackend
    const file: StateFile
    var dirty: bool

    ghost predicate Valid()
      reads this, aggregator
    {
      aggregator.config == config.aggregation && aggregator.Valid()
    }

    ghost function View(): World
      reads this, aggregator, backend, file
    {
      World(config, aggregator.View(), backend.entries, file.contents, dirty)
    }

    constructor Assemble(config: WorkerConfig, aggregator: Aggregator, backend: BanBackend, file: StateFile)
      ensures this.config == config && this.aggregator == aggregator && this.backend == backend && this.file == file
      ensures !dirty
    {
      this.config, this.aggregator, this.backend, this.file, dirty := config, aggregator, backend, file, false;
    }

    /** Load the state file, rebuild the backend without excepted targets, and drop them; a
        backend that cannot be rebuilt prevents the start. */
    static method Start(config: WorkerConfig, backend: BanBackend, file: StateFile, now: int)
      returns (worker: BanWorker?, ghost lifted: set<BanTarget>, applied: Result<set<BanTarget>, BackendError>)
      modifies backend, file
      ensures worker != null ==>
        && fresh(worker) && fresh(worker.aggregator) && worker.backend == backend && worker.file == file
        && worker.Valid()
        && Starts(config, old(file.contents), now, lifted, applied, worker.View())
      ensures worker == null ==> backend.entries == old(backend.entries) && file.contents == old(file.contents)
    {
      hide ApplyExceptionsStep, Restored, Saves, Agrees;
      applied, lifted, worker := Failure(Refused), {}, null;
      var aggregator := new Aggregator(config.aggregation);
      EmptyAgrees(config.aggregation);
      if config.persists && file.contents.Some? {
        var error := aggregator.RestorePersistentState(file.contents.value, now);
        RestoredAgrees(config.aggregation, file.contents.value, now);
        SameAgreement(config.aggregation, aggregator.View(),
                      Restored(config.aggregation, EMPTY, file.contents.value, now));
      }
      ghost var loaded := aggregator.View();
      assert loaded == Loaded(config, file.contents, now, loaded.evictions);
      assert Agrees(config.aggregation, loaded);
      hide Loaded;
      var targets := aggregator.TargetsExcluding(config.exceptions);
      var ok := backend.Reconcile(targets);
      if !ok {
        return;
      }
      applied, lifted := aggregator.ApplyExceptions(config.exceptions, backend);
      ApplyExceptionsAgrees(config.aggregation, loaded, targets, config.exceptions, lifted,
                            aggregator.View(), backend.entries, applied);
      KeepsEvictions(config.aggregation, loaded, targets, config.exceptions, lifted,
                     aggregator.View(), backend.entries, applied);
      if applied.Success? && config.exceptions != [] && config.persists {
        var state := aggregator.PersistentForm();
        ok := file.Save(state);
      }
      worker := new BanWorker.Assemble(config, aggregator, backend, file);
    }

    method SavePersistenceIfConfigured(due: bool)
      requires Valid()
      modifies this`dirty, file
      ensures View() == old(View()).(disk := file.contents, dirty := dirty)
      ensures SaveOutcome(config, aggregator.View(), old(file.contents), old(dirty), due, file.contents, dirty)
    {
      hide Saves;
      if !dirty || !due {
        return;
      }
      if config.persists {
        var state := aggregator.PersistentForm();
        var ok := file.Save(state);
        if !ok {
          return;
        }
      }
      dirty := false;
    }

    /** One matched address: excepted ones are skipped; a recorded ban is saved at once. */
    method HandleHit(ip: IpAddr, weight: u64, rule: string, now: int, saveDue: bool)
      returns (handled: bool, ghost move: Move)
      requires Valid()
      modifies this`dirty, aggregator, backend, file
      ensures Valid() && move.event.Hit? && move.now == now && Step(old(View()), move, View())
      ensures move.event.ip == ip && move.event.weight == weight && move.event.rule == rule
      ensures handled <==> Ends(old(config), move.event)
      ensures handled ==> move.due == SavesNow(move.event, saveDue)
    {
      hide RecordStep, Saves, Agrees, SaveOutcome;
      if IsException(ip, config.exceptions) {
        move := Move(Hit(ip, weight, rule, Evicted({}, None, None, {}), Success(RecordResult([], {}))), now, false);
        return false, move;
      }
      ghost var before := aggregator.View();
      ghost var entries := backend.entries;
      var r, evicted := aggregator.Record(ip, weight, rule, now, backend);
      RecordAgrees(config.aggregation, before, entries, ip, weight, rule, now, evicted,
                   aggregator.View(), backend.entries, r);
      if r.Failure? {
        move := Move(Hit(ip, weight, rule, evicted, r), now, false);
        return false, move;
      }
      dirty := true;
      var due := r.value.transitions != [] || saveDue;
      SavePersistenceIfConfigured(due);
      move := Move(Hit(ip, weight, rule, evicted, r), now, due);
      handled := true;
    }

    method CleanUp(now: int) returns (ghost move: Move)
      requires Valid()
      modifies this`dirty, aggregator, backend, file
      ensures Valid() && move.event.Cleanup? && move.now == now && Step(old(View()), move, View())
    {
      hide CleanupStep, Saves, Agrees, SaveOutcome;
      ghost var before := aggregator.View();
      ghost var entries := backend.entries;
      var r, lifted := aggregator.CleanupExpired(now, backend);
      CleanupAgrees(config.aggregation, before, entries, now, lifted, aggregator.View(), backend.entries, r);
      if r.Success? {
        if r.value != {} {
          dirty := true;
        }
        SavePersistenceIfConfigured(true);
      }
      move := Move(Cleanup(lifted, r), now, true);
    }

    method HandleAddBan(target: BanTarget, seconds: nat, reason: string, now: int)
      returns (r: Result<ActiveBan, WorkerError>, ghost move: Move)
      requires Valid()
      modifies this`dirty, aggregator, backend, file
      ensures Valid() && move.event.AddBan? && move.now == now && Step(old(View()), move, View())
      ensures move.event.target == target && move.event.seconds == seconds && move.event.reason == reason
      ensures r == move.event.added
    {
      hide AddManualStep, Saves, Agrees, SaveOutcome;
      if seconds < 60 || seconds > config.aggregation.maxBan {
        r := Failure(BadDuration);
        move := Move(AddBan(target, seconds, reason, {}, {}, r), now, false);
        return;
      }
      ghost var before := aggregator.View();
      ghost var entries := backend.entries;
      var added, failed, forgotten := aggregator.AddManual(target, seconds, reason, now, backend);
      AddManualAgrees(config.aggregation, before, entries, target, seconds, reason, now, failed, forgotten,
                      aggregator.View(), backend.entries, added);
      if added.Success? {
        r := Success(added.value);
        dirty := true;
        SavePersistenceIfConfigured(true);
      } else {
        r := Failure(BackendFailed(added.error));
      }
      move := Move(AddBan(target, seconds, reason, failed, forgotten, r), now, true);
    }

    method HandleReset(target: BanTarget, now: int) returns (ghost move: Move)
      requires Valid()
      modifies this`dirty, aggregator, file
      ensures Valid() && move.event == Reset(target) && move.now == now && Step(old(View()), move, View())
    {
      hide ResetDone, Saves, Agrees, SaveOutcome;
      ResetAgrees(config.aggregation, aggregator.View(), target);
      aggregator.ResetCounts(target);
      dirty := true;
      SavePersistenceIfConfigured(true);
      move := Move(Reset(target), now, true);
    }

    /** A timed or forced save; flushing reports whether anything is still unsaved. */
    method HandlePersist(due: bool, now: int) returns (r: Result<(), WorkerError>, ghost move: Move)
      requires Valid()
      modifies this`dirty, file
      ensures Valid() && move == Move(Persist, now, due) && Step(old(View()), move, View())
      ensures r == if dirty then Failure(NotFlushed) else Success(())
    {
      hide Saves, Agrees, SaveOutcome;
      SavePersistenceIfConfigured(due);
      r := if dirty then Failure(NotFlushed) else Success(());
      move := Move(Persist, now, due);
    }

    method HandleReconcile(now: int) returns (ok: bool, ghost move: Move)
      requires Valid()
      modifies backend
      ensures Valid() && move.now == now && Step(old(View()), move, View())
      ensures move.event == Reconcile(ok)
    {
      ok := backend.Reconcile(aggregator.activeBans.Keys);
      move := Move(Reconcile(ok), now, false);
    }

    method HandleUpdate(config': WorkerConfig, now: int) returns (r: Result<(), WorkerError>, ghost move: Move)
      requires Valid()
      modifies this, aggregator, backend, file
      ensures Valid() && move.event.Update? && move.now == now && Step(old(View()), move, View())
      ensures move.event.config == config'
      ensures r.Success? <==> move.event.reconciled && move.event.applied.Success?
      ensures r == Failure(StartupOnly) <==>
                config'.ipset != old(config.ipset) || config'.firewall != old(config.firewall)
      ensures config == if r.Success? then config' else old(config)
    {
      hide ApplyExceptionsStep, Saves, Agrees, SaveOutcome, Regroup;
      ghost var before := aggregator.View();
      if config'.ipset != config.ipset || config'.firewall != config.firewall {
        move := Move(Update(config', false, {}, Failure(Refused)), now, false);
        return Failure(StartupOnly), move;
      }
      var targets := aggregator.TargetsExcluding(config'.exceptions);
      var ok := backend.Reconcile(targets);
      if !ok {
        move := Move(Update(config', false, {}, Failure(Refused)), now, false);
        return Failure(BackendFailed(Refused)), move;
      }
      var applied, lifted := aggregator.ApplyExceptions(config'.exceptions, backend);
      ApplyExceptionsAgrees(config.aggregation, before, targets, config'.exceptions, lifted,
                            aggregator.View(), backend.entries, applied);
      move := Move(Update(config', true, lifted, applied), now, true);
      if applied.Failure? {
        return Failure(BackendFailed(applied.error)), move;
      }
      ghost var cleared := aggregator.View();
      ClearedIndex(config.aggregation, before, targets, config'.exceptions, lifted, cleared, backend.entries, applied);
      aggregator.Reconfigure(config'.aggregation);
      ReconfiguredAgrees(config.aggregation, cleared, config'.aggregation);
      config := config';
      dirty := true;
      SavePersistenceIfConfigured(true);
      r := Success(());
    }

    /** Rules are tried in order; the first one whose hit is recorded ends the line, while an
        excepted or refused hit passes on to the next rule. */
    method HandleLine(matches: seq<RuleMatch>, now: int)
      returns (ghost worlds: seq<World>, ghost moves: seq<Move>)
      requires Valid()
      modifies this`dirty, aggregator, backend, file
      ensures Valid() && Leads(old(View()), worlds, moves, View(), now)
      ensures TriesInOrder(old(config), HitsOf(matches), moves) && config == old(config)
    {
      hide Step, Leads, Agrees, IsException, Ends;
      worlds, moves := [View()], [];
      StayPut(View(), now);
      for i := 0 to |matches|
        invariant Valid() && config == old(config)
        invariant Leads(old(View()), worlds, moves, View(), now)
        invariant TriesInOrder(config, HitsOf(matches[..i]), moves) && |moves| == |HitsOf(matches[..i])|
        invariant forall j | 0 <= j < |moves| :: moves[j].event.Hit? && !Ends(config, moves[j].event)
      {
        var m := matches[i];
        HitsUpto(matches, i);
        if m.hit == None {
          continue;
        }
        ghost var before := View();
        var handled, move := HandleHit(m.hit.value, m.weight, m.rule, now, m.saveDue);
        OneMoreMove(old(View()), worlds, moves, before, now, move, View());
        worlds, moves := worlds + [View()], moves + [move];
        if handled {
          HitsExtend(matches[..i + 1], matches);
          return;
        }
      }
      assert matches[..|matches|] == matches;
    }

    /** One poll: reverification and cleanup when due, a timed save otherwise, then every line. */
    method Poll(input: PollInput, now: int) returns (ghost worlds: seq<World>, ghost moves: seq<Move>)
      requires Valid()
      modifies this`dirty, aggregator, backend, file
      ensures Valid() && Leads(old(View()), worlds, moves, View(), now)
      ensures PollMoves(old(config), input, moves)
    {
      hide Step, Leads, Agrees, TriesInOrder, LinesTried;
      worlds, moves := [View()], [];
      StayPut(View(), now);
      if input.reverifyDue {
        ghost var before := View();
        var ok, move := HandleReconcile(now);
        OneMoreMove(old(View()), worlds, moves, before, now, move, View());
        worlds, moves := worlds + [View()], moves + [move];
      }
      ghost var before := View();
      ghost var move;
      if input.cleanupDue {
        move := CleanUp(now);
      } else {
        var flushed;
        flushed, move := HandlePersist(input.persistDue, now);
      }
      OneMoreMove(old(View()), worlds, moves, before, now, move, View());
      worlds, moves := worlds + [View()], moves + [move];
      ghost var head := moves;
      ghost var rest: seq<Move>;
      worlds, moves, rest := HandleLines(input.lines, now, worlds, moves, old(View()));
      assert moves[|head|..] == rest;
    }

    method HandleLines(lines: seq<seq<RuleMatch>>, now: int,
                       ghost worlds0: seq<World>, ghost moves0: seq<Move>, ghost first: World)
      returns (ghost worlds: seq<World>, ghost moves: seq<Move>, ghost rest: seq<Move>)
      requires Valid() && Leads(first, worlds0, moves0, View(), now)
      modifies this`dirty, aggregator, backend, file
      ensures Valid() && config == old(config) && Leads(first, worlds, moves, View(), now)
      ensures moves == moves0 + rest && LinesTried(config, lines, rest)
    {
      hide Step, Leads, Agrees, TriesInOrder, LinesTried;
      worlds, moves, rest := worlds0, moves0, [];
      NoLines(config);
      for i := 0 to |lines|
        invariant Valid() && config == old(config) && moves == moves0 + rest
        invariant Leads(first, worlds, moves, View(), now)
        invariant LinesTried(config, lines[..i], rest)
      {
        ghost var here := View();
        ghost var someWorlds, someMoves := HandleLine(lines[i], now);
        MoreMoves(first, worlds, moves, here, now, someWorlds, someMoves, View());
        OneMoreLine(config, lines, i, rest, someMoves);
        worlds, moves, rest := worlds + someWorlds[1..], moves + someMoves, rest + someMoves;
      }
      assert lines[..|lines|] == lines;
    }
  }

  lemma NoLines(config: WorkerConfig)
    ensures LinesTried(config, [], [])
  {
  }

  lemma OneMoreLine(config: WorkerConfig, lines: seq<seq<RuleMatch>>, i: nat,
                    moves: seq<Move>, more: seq<Move>)
    requires i < |lines| && LinesTried(config, lines[..i], moves)
    requires TriesInOrder(config, HitsOf(lines[i]), more)
    ensures LinesTried(config, lines[..i + 1], moves + more)
  {
    hide TriesInOrder;
    var all, k := moves + more, |moves|;
    assert all[..k] == moves && all[k..] == more;
    assert lines[..i + 1][..i] == lines[..i];
  }

  lemma {:induction false} HitsAppend(left: seq<RuleMatch>, right: seq<RuleMatch>)
    ensures HitsOf(left + right) == HitsOf(left) + HitsOf(right)
  {
    if left == [] {
      assert left + right == right;
    } else {
      HitsAppend(left[1..], right);
      var first := if left[0].hit.Some? then [left[0]] else [];
      assert (left + right)[1..] == left[1..] + right;
      assert HitsOf(left + right) == first + HitsOf(left[1..] + right);
      assert first + (HitsOf(left[1..]) + HitsOf(right)) == first + HitsOf(left[1..]) + HitsOf(right);
    }
  }

  lemma HitsUpto(matches: seq<RuleMatch>, i: nat)
    requires i < |matches|
    ensures HitsOf(matches[..i + 1]) == HitsOf(matches[..i]) + if matches[i].hit.Some? then [matches[i]] else []
  {
    assert matches[..i + 1] == matches[..i] + [matches[i]];
    HitsAppend(matches[..i], [matches[i]]);
  }

  lemma HitsExtend(front: seq<RuleMatch>, matches: seq<RuleMatch>)
    requires front <= matches
    ensures HitsOf(front) <= HitsOf(matches)
  {
    assert matches == front + matches[|front|..];
    HitsAppend(front, matches[|front|..]);
  }

  lemma MoreMoves(first: World, worlds: seq<World>, moves: seq<Move>, w: World, now: int,
                  worlds': seq<World>, moves': seq<Move>, w': World)
    requires Leads(first, worlds, moves, w, now) && Leads(w, worlds', moves', w', now)
    ensures |worlds'| > 0 && Leads(first, worlds + worlds'[1..], moves + moves', w', now)
  {
    hide Step;
    var all, steps := worlds + worlds'[1..], moves + moves';
    forall i | 0 <= i < |steps| ensures Step(all[i], steps[i], all[i + 1]) && steps[i].now == now {
      if i < |moves| {
        assert Step(worlds[i], moves[i], worlds[i + 1]);
      } else {
        assert Step(worlds'[i - |moves|], moves'[i - |moves|], worlds'[i - |moves| + 1]);
      }
    }
  }

  lemma SameAgreement(cfg: Config, s: AggState, restored: AggState)
    requires Agrees(cfg, restored)
    ensures s == restored.(evictions := s.evictions) ==> Agrees(cfg, s)
  {
  }

  lemma KeepsEvictions(cfg: Config, s: AggState, entries: set<BanTarget>, exceptions: seq<IpNet>,
                       lifted: set<BanTarget>, s': AggState, entries': set<BanTarget>,
                       r: Result<set<BanTarget>, BackendError>)
    requires ApplyExceptionsStep(cfg, s, entries, exceptions, lifted, s', entries', r)
    ensures s'.evictions == s.evictions
  {
  }

  lemma ClearedIndex(cfg: Config, s: AggState, entries: set<BanTarget>, exceptions: seq<IpNet>,
                     lifted: set<BanTarget>, s': AggState, entries': set<BanTarget>,
                     r: Result<set<BanTarget>, BackendError>)
    requires ApplyExceptionsStep(cfg, s, entries, exceptions, lifted, s', entries', r) && r.Success?
    ensures s'.scores.subnets == Regroup(cfg, s'.scores.counts)
  {
  }

  lemma ReconfiguredAgrees(cfg: Config, s: AggState, cfg': Config)
    requires Agrees(cfg, s)
    ensures Agrees(cfg', s.(scores := s.scores.(subnets := Regroup(cfg', s.scores.counts))))
  {
    hide Regroup;
  }
}
