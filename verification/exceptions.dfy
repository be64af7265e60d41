/** Exceptions in the aggregator: what a pass establishes and every operation keeps. */
module Exceptions {
  import opened Wrappers
  import opened Networks
  import opened Counters
  import opened AggregateState
  import opened AggregateSteps
  import opened AggregateInvariants
  import opened TableEffects
  import opened RecordEffects

  ghost predicate BansUnexcepted(bans: Bans, exceptions: seq<IpNet>) {
    && (forall t | t in bans.active :: !IsExcepted(t, exceptions))
    && (forall net | net in bans.reputation :: !IsCovered(net, exceptions))
  }

  ghost predicate ScoresUnexcepted(scores: Scores, exceptions: seq<IpNet>) {
    && (forall ip | ip in scores.counts :: !IsException(ip, exceptions))
    && (forall ip | ip in scores.lastSeen :: !IsException(ip, exceptions))
    && CrossingsUnexcepted(scores.offenders, exceptions)
  }

  ghost predicate CrossingsUnexcepted(offenders: Offenders, exceptions: seq<IpNet>) {
    forall net, ip | Noted(offenders, net, ip) :: !IsCovered(net, exceptions) && !IsException(ip, exceptions)
  }

  /** No ban, reputation, score or crossing concerns an excepted network. */
  ghost predicate Unexcepted(s: AggState, exceptions: seq<IpNet>) {
    BansUnexcepted(s.bans, exceptions) && ScoresUnexcepted(s.scores, exceptions)
  }

  /** A target is excepted exactly when its network is covered. */
  lemma ExceptedIsCovered(target: BanTarget, exceptions: seq<IpNet>)
    ensures IsExcepted(target, exceptions) <==> IsCovered(NetworkOf(target), exceptions)
  {
    if target.Ip? {
      forall e | e in exceptions ensures Contains(e, target.ip) <==> Covers(e, HostNetwork(target.ip)) {
      }
    }
  }

  /** The subnet of an address that is not excepted is not covered, so promotion never bans
      inside an exception. */
  lemma SubnetNotCovered(cfg: Config, ip: IpAddr, exceptions: seq<IpNet>)
    requires !IsException(ip, exceptions)
    ensures !IsCovered(SubnetFor(cfg, ip), exceptions)
  {
    SubnetContains(cfg, ip, ip);
    forall e | e in exceptions && Covers(e, SubnetFor(cfg, ip)) ensures false {
      CoversContains(e, SubnetFor(cfg, ip), ip);
    }
  }

  lemma PlacedUnexcepted(cfg: Config, bans: Bans, target: BanTarget, ban: ActiveBan, forgotten: set<IpNet>,
                         exceptions: seq<IpNet>)
    requires BansUnexcepted(bans, exceptions) && !IsExcepted(target, exceptions) && ban.network == NetworkOf(target)
    ensures BansUnexcepted(Placed(cfg, bans, target, ban, forgotten), exceptions)
  {
    ExceptedIsCovered(target, exceptions);
    hide IsExcepted, IsCovered, IsException, CoveredIps;
  }

  lemma RecordUnexcepted(cfg: Config, s: AggState, entries: set<BanTarget>, ip: IpAddr, weight: u64, rule: string,
                         now: int, gone: Evicted, s': AggState, entries': set<BanTarget>,
                         r: Result<RecordResult, BackendError>, exceptions: seq<IpNet>)
    requires Unexcepted(s, exceptions) && !IsException(ip, exceptions)
    requires RecordStep(cfg, s, entries, ip, weight, rule, now, gone, s', entries', r)
    ensures Unexcepted(s', exceptions)
  {
    hide RecordStep, BansUnexcepted, CrossingsUnexcepted, IsException, SubnetFor;
    RecordedBansUnexcepted(cfg, s, entries, ip, weight, rule, now, gone, s', entries', r, exceptions);
    RecordedIps(cfg, s, entries, ip, weight, rule, now, gone, s', entries', r);
    RecordedNotesUnexcepted(cfg, s, entries, ip, weight, rule, now, gone, s', entries', r, exceptions);
  }

  lemma RecordedNotesUnexcepted(cfg: Config, s: AggState, entries: set<BanTarget>, ip: IpAddr, weight: u64,
                                rule: string, now: int, gone: Evicted, s': AggState, entries': set<BanTarget>,
                                r: Result<RecordResult, BackendError>, exceptions: seq<IpNet>)
    requires CrossingsUnexcepted(s.scores.offenders, exceptions) && !IsException(ip, exceptions)
    requires RecordStep(cfg, s, entries, ip, weight, rule, now, gone, s', entries', r)
    ensures CrossingsUnexcepted(s'.scores.offenders, exceptions)
  {
    hide RoomFor, SubnetFor, IsException, IsCovered, Noted, Crossed, WithoutCrossing;
    SubnetNotCovered(cfg, ip, exceptions);
    RecordedNotes(cfg, s, entries, ip, weight, rule, now, gone, s', entries', r);
    hide RecordStep;
    var room := RoomFor(cfg, s.scores, ip, now, gone).offenders;
    forall n, a | Noted(s'.scores.offenders, n, a) ensures !IsCovered(n, exceptions) && !IsException(a, exceptions) {
      RoomNotes(cfg, s.scores, ip, now, gone, n, a);
      CrossedNotes(cfg, room, gone.crossing, SubnetFor(cfg, ip), ip, now, n, a);
    }
  }

  lemma RecordedNotes(cfg: Config, s: AggState, entries: set<BanTarget>, ip: IpAddr, weight: u64, rule: string,
                      now: int, gone: Evicted, s': AggState, entries': set<BanTarget>,
                      r: Result<RecordResult, BackendError>)
    requires RecordStep(cfg, s, entries, ip, weight, rule, now, gone, s', entries', r)
    ensures
      var room := RoomFor(cfg, s.scores, ip, now, gone).offenders;
      || s'.scores.offenders == room
      || s'.scores.offenders == Crossed(cfg, WithoutCrossing(room, gone.crossing), SubnetFor(cfg, ip), ip, now)
  {
    hide RoomChoice, RoomFor, SubnetFor, BanStep, CoveredBySubnet, Crossed, WithoutCrossing, CrossingChoice;
    hide Lost, CountMatch, CountBans;
  }

  lemma RecordedBansUnexcepted(cfg: Config, s: AggState, entries: set<BanTarget>, ip: IpAddr, weight: u64, rule: string,
                               now: int, gone: Evicted, s': AggState, entries': set<BanTarget>,
                               r: Result<RecordResult, BackendError>, exceptions: seq<IpNet>)
    requires BansUnexcepted(s.bans, exceptions) && !IsException(ip, exceptions)
    requires RecordStep(cfg, s, entries, ip, weight, rule, now, gone, s', entries', r)
    ensures BansUnexcepted(s'.bans, exceptions)
  {
    hide RecordStep, SubnetFor, AttemptOf, CoveredBySubnet, Placed, TrimChoice, CoveredIps, IsException, IsCovered;
    hide BansUnexcepted;
    SubnetNotCovered(cfg, ip, exceptions);
    var attempt := RecordAttempts(cfg, s, entries, ip, weight, rule, now, gone, s', entries', r);
    if attempt.Some? && r.Success? {
      PlacedUnexcepted(cfg, s.bans, attempt.value.target, attempt.value.ban, gone.reputation, exceptions);
    }
  }

  lemma RecordedIps(cfg: Config, s: AggState, entries: set<BanTarget>, ip: IpAddr, weight: u64, rule: string,
                    now: int, gone: Evicted, s': AggState, entries': set<BanTarget>,
                    r: Result<RecordResult, BackendError>)
    requires RecordStep(cfg, s, entries, ip, weight, rule, now, gone, s', entries', r)
    ensures s'.scores.counts.Keys <= s.scores.counts.Keys + {ip}
    ensures s'.scores.lastSeen.Keys <= s.scores.lastSeen.Keys + {ip}
  {
    ScoredIps(cfg, s.scores, ip, weight, now, gone);
    hide RoomChoice, RoomFor, Added, SubnetFor, BanStep, CoveredBySubnet, Crossed, WithoutCrossing, CrossingChoice;
  }

  /** Scoring touches no address but its own. */
  lemma ScoredIps(cfg: Config, s: Scores, ip: IpAddr, weight: u64, now: int, gone: Evicted)
    ensures Added(cfg, RoomFor(cfg, s, ip, now, gone), ip, weight).counts.Keys <= s.counts.Keys + {ip}
    ensures Added(cfg, RoomFor(cfg, s, ip, now, gone), ip, weight).lastSeen.Keys <= s.lastSeen.Keys + {ip}
  {
    hide Regroup, SubnetFor, Inside;
  }

  lemma AddManualUnexcepted(cfg: Config, s: AggState, entries: set<BanTarget>, target: BanTarget, duration: int,
                            reason: string, now: int, failed: set<IpAddr>, forgotten: set<IpNet>,
                            s': AggState, entries': set<BanTarget>, r: Result<ActiveBan, BackendError>,
                            exceptions: seq<IpNet>)
    requires Unexcepted(s, exceptions) && !IsExcepted(target, exceptions)
    requires AddManualStep(cfg, s, entries, target, duration, reason, now, failed, forgotten, s', entries', r)
    ensures Unexcepted(s', exceptions)
  {
    hide Placed, TrimChoice, CoveredIps, IsException, IsCovered, IsExcepted;
    if r.Success? {
      PlacedUnexcepted(cfg, s.bans, target, ManualBan(cfg, s.bans, target, duration, reason, now), forgotten,
                       exceptions);
    }
  }

  lemma CleanupUnexcepted(cfg: Config, s: AggState, entries: set<BanTarget>, now: int, gone: set<BanTarget>,
                          s': AggState, entries': set<BanTarget>, r: Result<set<BanTarget>, BackendError>,
                          exceptions: seq<IpNet>)
    requires Unexcepted(s, exceptions) && CleanupStep(cfg, s, entries, now, gone, s', entries', r)
    ensures Unexcepted(s', exceptions)
  {
    LiveCrossings(s.scores.offenders, now - cfg.promotionWindow, exceptions);
    hide IsException, IsCovered, IsExcepted, Regroup, LiveOffenders, CrossingsUnexcepted;
  }

  lemma LiveCrossings(offenders: Offenders, cutoff: int, exceptions: seq<IpNet>)
    requires CrossingsUnexcepted(offenders, exceptions)
    ensures CrossingsUnexcepted(LiveOffenders(offenders, cutoff), exceptions)
  {
    LiveOffendersKeep(offenders, cutoff);
    hide LiveOffenders, Contains, Covers;
  }

  /** A completed pass establishes the property for the new exceptions, and what survives is
      exactly what `targets_excluding` sent to the backend; a pass that stops part way keeps
      it for the old ones. */
  lemma ApplyExceptionsUnexcepted(cfg: Config, s: AggState, entries: set<BanTarget>, exceptions: seq<IpNet>,
                                  gone: set<BanTarget>, s': AggState, entries': set<BanTarget>,
                                  r: Result<set<BanTarget>, BackendError>, before: seq<IpNet>)
    requires ApplyExceptionsStep(cfg, s, entries, exceptions, gone, s', entries', r)
    ensures r.Success? ==>
              && Unexcepted(s', exceptions)
              && s'.bans.active.Keys == s.bans.active.Keys - ExceptedTargets(s.bans, exceptions)
    ensures Unexcepted(s, before) ==> Unexcepted(s', before)
  {
    hide IsException, IsCovered, IsExcepted, Regroup, CrossingsUnexcepted, UnexceptedOffenders;
    ClearedCrossings(s.scores.offenders, exceptions, before);
  }

  lemma ClearedCrossings(offenders: Offenders, exceptions: seq<IpNet>, before: seq<IpNet>)
    ensures CrossingsUnexcepted(UnexceptedOffenders(offenders, exceptions), exceptions)
    ensures CrossingsUnexcepted(offenders, before) ==>
              CrossingsUnexcepted(UnexceptedOffenders(offenders, exceptions), before)
    ensures CrossingsUnexcepted(offenders, exceptions) ==>
              forall n, a :: Noted(UnexceptedOffenders(offenders, exceptions), n, a) <==> Noted(offenders, n, a)
  {
    hide Contains, Covers, UnexceptedOffenders;
    UnexceptedOffendersKeep(offenders, exceptions);
    if CrossingsUnexcepted(offenders, exceptions) {
      forall n, a | Noted(offenders, n, a) ensures Noted(UnexceptedOffenders(offenders, exceptions), n, a) {
        assert Uncovered(n, exceptions) && NotExcepted(a, exceptions);
      }
    }
  }

  lemma ResetUnexcepted(cfg: Config, s: AggState, target: BanTarget, exceptions: seq<IpNet>)
    requires Unexcepted(s, exceptions)
    ensures Unexcepted(ResetDone(cfg, s, target), exceptions)
  {
    hide IsException, IsCovered, IsExcepted, Regroup, Contains;
    if target.Ip? {
      ResetAddressKeepsExactly(cfg, s, target.ip);
    } else {
      ResetNetworkKeepsExactly(cfg, s, target.net);
      forall n, a | Noted(ResetDone(cfg, s, target).scores.offenders, n, a) ensures Noted(s.scores.offenders, n, a) {
      }
    }
  }

  /** A pass over a state that already respects the exceptions changes nothing but stale
      promotion history. */
  lemma ClearedUnexcepted(cfg: Config, s: AggState, exceptions: seq<IpNet>)
    requires Unexcepted(s, exceptions) && s.bans.active.Keys == IpTargets(s.bans.ips) + SubnetTargets(s.bans.nets)
    ensures ExceptedTargets(s.bans, exceptions) == {}
    ensures Cleared(cfg, s, exceptions).bans == s.bans
    ensures Cleared(cfg, s, exceptions).scores.counts == s.scores.counts
    ensures forall n, a ::
      Noted(Cleared(cfg, s, exceptions).scores.offenders, n, a) <==> Noted(s.scores.offenders, n, a)
  {
    hide IsException, IsCovered, IsExcepted, Regroup, CrossingsUnexcepted, UnexceptedOffenders;
    ClearedCrossings(s.scores.offenders, exceptions, exceptions);
    assert s.bans.active - {} == s.bans.active;
  }
}
