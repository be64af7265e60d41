/** What expiry, exceptions and resets leave of every table, entry by entry. */
module TableEffects {
  import opened Wrappers
  import opened Networks
  import opened Counters
  import opened AggregateState
  import opened AggregateSteps

  /** An address crossed its threshold in a subnet at some time. */
  predicate Noted(offenders: Offenders, net: IpNet, ip: IpAddr) {
    net in offenders && ip in offenders[net]
  }

  /** The entries of a table that meet a condition, and no others, with their values. */
  ghost predicate Keeps<K(!new), V>(before: map<K, V>, after: map<K, V>, stays: K -> bool) {
    && (forall k :: k in after <==> k in before && stays(k))
    && (forall k | k in after :: after[k] == before[k])
  }

  ghost predicate KeepsNoted(before: Offenders, after: Offenders, stays: (IpNet, IpAddr) -> bool) {
    && (forall net, ip :: Noted(after, net, ip) <==> Noted(before, net, ip) && stays(net, ip))
    && (forall net, ip | Noted(after, net, ip) :: after[net][ip] == before[net][ip])
  }

  // ---------- Expiry ----------

  /** A completed expiry pass keeps a ban until its end, a score while its address was seen
      within the retention, a crossing within the promotion window, a reputation until its
      end, and nothing else. */
  lemma CleanupKeepsExactly(cfg: Config, s: AggState, entries: set<BanTarget>, now: int, gone: set<BanTarget>,
                            s': AggState, entries': set<BanTarget>, r: Result<set<BanTarget>, BackendError>)
    requires ScoresAgree(cfg, s.scores) && CleanupStep(cfg, s, entries, now, gone, s', entries', r) && r.Success?
    ensures Keeps(s.bans.active, s'.bans.active, t => t in s.bans.active && s.bans.active[t].expiresAt > now)
    ensures forall t :: t in r.value <==> t in s.bans.active && s.bans.active[t].expiresAt <= now
    ensures Keeps(s.scores.counts, s'.scores.counts,
                  ip => ip in s.scores.lastSeen && s.scores.lastSeen[ip] + cfg.scoreRetention > now)
    ensures Keeps(s.scores.lastSeen, s'.scores.lastSeen,
                  ip => ip in s.scores.lastSeen && s.scores.lastSeen[ip] + cfg.scoreRetention > now)
    ensures KeepsNoted(s.scores.offenders, s'.scores.offenders,
                       (net: IpNet, ip: IpAddr) => Noted(s.scores.offenders, net, ip)
                                    && s.scores.offenders[net][ip] > now - cfg.promotionWindow)
    ensures Keeps(s.bans.reputation, s'.bans.reputation,
                  net => net in s.bans.reputation && s.bans.reputation[net].retainUntil > now)
    ensures s'.rules == s.rules && s'.evictions == s.evictions
  {
    hide Regroup, LiveScores, Expired, LiveReputation, Keeps, KeepsNoted, WithoutTargets, ScoresAgree;
    LiveScoresKeep(cfg, s.scores, now);
    LiveBansKeep(s.bans, now);
  }

  lemma LiveScoresKeep(cfg: Config, scores: Scores, now: int)
    requires ScoresAgree(cfg, scores)
    ensures
      var live := LiveScores(cfg, scores, now);
      var recent := (ip: IpAddr) => ip in scores.lastSeen && scores.lastSeen[ip] + cfg.scoreRetention > now;
      && Keeps(scores.counts, live.counts, recent) && Keeps(scores.lastSeen, live.lastSeen, recent)
      && KeepsNoted(scores.offenders, live.offenders,
                    (net: IpNet, ip: IpAddr) =>
                      Noted(scores.offenders, net, ip) && scores.offenders[net][ip] > now - cfg.promotionWindow)
  {
    hide Regroup;
    LiveOffendersKeep(scores.offenders, now - cfg.promotionWindow);
    hide LiveOffenders, KeepsNoted;
  }

  lemma LiveBansKeep(bans: Bans, now: int)
    ensures
      var active := WithoutTargets(bans, Expired(bans, now)).active;
      && Keeps(bans.active, active, t => t in bans.active && bans.active[t].expiresAt > now)
      && (forall t :: t in Expired(bans, now) <==> t in bans.active && bans.active[t].expiresAt <= now)
      && Keeps(bans.reputation, LiveReputation(bans.reputation, now),
               net => net in bans.reputation && bans.reputation[net].retainUntil > now)
  {
  }

  lemma LiveOffendersKeep(offenders: Offenders, cutoff: int)
    ensures KeepsNoted(offenders, LiveOffenders(offenders, cutoff),
                       (net: IpNet, ip: IpAddr) => Noted(offenders, net, ip) && offenders[net][ip] > cutoff)
  {
    forall net, ip | Noted(offenders, net, ip) && offenders[net][ip] > cutoff
      ensures Noted(LiveOffenders(offenders, cutoff), net, ip)
    {
      assert ip in After(offenders[net], cutoff);
    }
  }

  // ---------- Exceptions ----------

  /** A completed exception pass drops the bans whose network an exception covers, the scores
      and crossings of addresses an exception contains, the crossings and reputations of
      networks one covers, and nothing else. */
  lemma ExceptionsKeepExactly(cfg: Config, s: AggState, entries: set<BanTarget>, exceptions: seq<IpNet>,
                              gone: set<BanTarget>, s': AggState, entries': set<BanTarget>,
                              r: Result<set<BanTarget>, BackendError>)
    requires ScoresAgree(cfg, s.scores) && r.Success?
    requires ApplyExceptionsStep(cfg, s, entries, exceptions, gone, s', entries', r)
    ensures Keeps(s.bans.active, s'.bans.active, (t: BanTarget) =>
                    if t.Ip? then NotExcepted(t.ip, exceptions) else Uncovered(t.net, exceptions))
    ensures r.value == s.bans.active.Keys - s'.bans.active.Keys
    ensures Keeps(s.scores.counts, s'.scores.counts, ip => NotExcepted(ip, exceptions))
    ensures Keeps(s.scores.lastSeen, s'.scores.lastSeen, ip => NotExcepted(ip, exceptions))
    ensures KeepsNoted(s.scores.offenders, s'.scores.offenders,
                       (net: IpNet, ip: IpAddr) => Uncovered(net, exceptions) && NotExcepted(ip, exceptions))
    ensures Keeps(s.bans.reputation, s'.bans.reputation, net => Uncovered(net, exceptions))
    ensures s'.rules == s.rules && s'.evictions == s.evictions
  {
    hide Regroup, Keeps, KeepsNoted, UnexceptedScores, WithoutTargets, UnexceptedReputation, ExceptedTargets;
    UnexceptedScoresKeep(cfg, s.scores, exceptions);
    UnexceptedBansKeep(s.bans, exceptions);
  }

  lemma UnexceptedScoresKeep(cfg: Config, scores: Scores, exceptions: seq<IpNet>)
    ensures
      var kept := UnexceptedScores(cfg, scores, exceptions);
      && Keeps(scores.counts, kept.counts, ip => NotExcepted(ip, exceptions))
      && Keeps(scores.lastSeen, kept.lastSeen, ip => NotExcepted(ip, exceptions))
      && KeepsNoted(scores.offenders, kept.offenders,
                    (net: IpNet, ip: IpAddr) => Uncovered(net, exceptions) && NotExcepted(ip, exceptions))
  {
    hide Regroup, Contains, Covers;
    UnexceptedOffendersKeep(scores.offenders, exceptions);
    hide UnexceptedOffenders, KeepsNoted;
  }

  lemma UnexceptedBansKeep(bans: Bans, exceptions: seq<IpNet>)
    ensures
      var active := WithoutTargets(bans, ExceptedTargets(bans, exceptions)).active;
      && Keeps(bans.active, active, (t: BanTarget) =>
           if t.Ip? then NotExcepted(t.ip, exceptions) else Uncovered(t.net, exceptions))
      && ExceptedTargets(bans, exceptions) == bans.active.Keys - active.Keys
      && Keeps(bans.reputation, UnexceptedReputation(bans.reputation, exceptions), net => Uncovered(net, exceptions))
  {
    hide Contains, Covers;
  }

  predicate NotExcepted(ip: IpAddr, exceptions: seq<IpNet>) {
    forall e | e in exceptions :: !Contains(e, ip)
  }

  predicate Uncovered(net: IpNet, exceptions: seq<IpNet>) {
    forall e | e in exceptions :: !Covers(e, net)
  }

  lemma UnexceptedOffendersKeep(offenders: Offenders, exceptions: seq<IpNet>)
    ensures KeepsNoted(offenders, UnexceptedOffenders(offenders, exceptions),
                       (net: IpNet, ip: IpAddr) => Uncovered(net, exceptions) && NotExcepted(ip, exceptions))
  {
    hide Contains, Covers;
    forall net, ip | Noted(offenders, net, ip) && Uncovered(net, exceptions) && NotExcepted(ip, exceptions)
      ensures Noted(UnexceptedOffenders(offenders, exceptions), net, ip)
    {
      var rest := map a | a in offenders[net] && !IsException(a, exceptions) :: offenders[net][a];
      assert ip in rest;
    }
  }

  // ---------- Resets ----------

  /** Resetting an address forgets its score, time, crossings and reputation, and nothing else;
      bans stay. */
  lemma ResetAddressKeepsExactly(cfg: Config, s: AggState, ip: IpAddr)
    ensures
      var s' := ResetDone(cfg, s, Ip(ip));
      && Keeps(s.scores.counts, s'.scores.counts, a => a != ip)
      && Keeps(s.scores.lastSeen, s'.scores.lastSeen, a => a != ip)
      && KeepsNoted(s.scores.offenders, s'.scores.offenders, (net, a) => a != ip)
      && Keeps(s.bans.reputation, s'.bans.reputation, net => net != HostNetwork(ip))
      && s'.bans.active == s.bans.active && s'.bans.ips == s.bans.ips && s'.bans.nets == s.bans.nets
      && s'.rules == s.rules && s'.evictions == s.evictions
  {
    hide Regroup;
  }

  /** Resetting a network forgets the scores and times of the addresses inside it, and the
      crossings and reputations of the networks whose address lies inside it, and nothing
      else; bans stay. */
  lemma ResetNetworkKeepsExactly(cfg: Config, s: AggState, net: IpNet)
    ensures
      var s' := ResetDone(cfg, s, Subnet(net));
      && Keeps(s.scores.counts, s'.scores.counts, ip => !Contains(net, ip))
      && Keeps(s.scores.lastSeen, s'.scores.lastSeen, ip => !Contains(net, ip))
      && Keeps(s.scores.offenders, s'.scores.offenders, (n: IpNet) => !Contains(net, n.addr))
      && Keeps(s.bans.reputation, s'.bans.reputation, (n: IpNet) => !Contains(net, n.addr))
      && s'.bans.active == s.bans.active && s'.bans.ips == s.bans.ips && s'.bans.nets == s.bans.nets
      && s'.rules == s.rules && s'.evictions == s.evictions
  {
    hide Regroup, Contains;
  }
}
