/** The kernel set built for a family: `hash:net` entries, some flagged `nomatch`.  A packet's
    source is looked up by longest prefix; it is dropped when the entry found is not `nomatch`. */
module IpSet {
  import opened Wrappers
  import opened Networks
  import opened Collections
  import opened Eviction
  import opened AggregateState
  import opened AggregateSteps
  import opened Exceptions

  datatype Flag = Match | Nomatch

  type KernelSet = map<IpNet, Flag>

  predicate Drops(entries: KernelSet, ip: IpAddr) {
    exists net | net in entries && Contains(net, ip) && entries[net] == Match ::
      forall other | other in entries && Contains(other, ip) :: other.prefix <= net.prefix
  }

  function Keys(targets: set<BanTarget>): set<IpNet> {
    set t | t in targets :: Canonical(NetworkOf(t))
  }

  function ExceptionKeys(exceptions: seq<IpNet>): set<IpNet> {
    set e | e in exceptions :: Canonical(e)
  }

  /** Bans are added first; a later `nomatch` entry for the same network replaces the ban. */
  function Built(targets: set<BanTarget>, exceptions: seq<IpNet>): KernelSet {
    map net | net in Keys(targets) + ExceptionKeys(exceptions) ::
      if net in ExceptionKeys(exceptions) then Nomatch else Match
  }

  function Upto(active: seq<BanTarget>, n: nat): set<BanTarget>
    requires n <= |active|
  {
    set t | t in active[..n]
  }

  /** The restore script, executed: one `add` for each target, then one for each exception. */
  method Restore(active: seq<BanTarget>, exceptions: seq<IpNet>) returns (entries: KernelSet)
    ensures entries == Built(Upto(active, |active|), exceptions)
  {
    hide Built;
    entries := map[];
    NoEntries();
    assert Upto(active, 0) == {};
    for i := 0 to |active|
      invariant entries == Built(Upto(active, i), [])
    {
      OneMoreBan(active, i);
      entries := entries[Canonical(NetworkOf(active[i])) := Match];
    }
    ghost var targets := Upto(active, |active|);
    for i := 0 to |exceptions|
      invariant entries == Built(targets, exceptions[..i])
    {
      OneMoreException(targets, exceptions, i);
      entries := entries[Canonical(exceptions[i]) := Nomatch];
    }
    assert exceptions[..|exceptions|] == exceptions;
  }

  lemma NoEntries()
    ensures Built({}, []) == map[]
  {
  }

  lemma OneMoreBan(active: seq<BanTarget>, i: nat)
    requires i < |active|
    ensures Built(Upto(active, i + 1), []) == Built(Upto(active, i), [])[Canonical(NetworkOf(active[i])) := Match]
  {
    hide Canonical;
    assert active[..i + 1] == active[..i] + [active[i]];
    assert Upto(active, i + 1) == Upto(active, i) + {active[i]};
    assert Keys(Upto(active, i + 1)) == Keys(Upto(active, i)) + {Canonical(NetworkOf(active[i]))};
  }

  lemma OneMoreException(targets: set<BanTarget>, exceptions: seq<IpNet>, i: nat)
    requires i < |exceptions|
    ensures Built(targets, exceptions[..i + 1]) == Built(targets, exceptions[..i])[Canonical(exceptions[i]) := Nomatch]
  {
    hide Canonical;
    assert exceptions[..i + 1] == exceptions[..i] + [exceptions[i]];
    assert ExceptionKeys(exceptions[..i + 1]) == ExceptionKeys(exceptions[..i]) + {Canonical(exceptions[i])};
  }

  predicate BannedBy(targets: set<BanTarget>, ip: IpAddr) {
    exists t | t in targets :: Contains(NetworkOf(t), ip)
  }

  lemma LongestMatch(entries: KernelSet, ip: IpAddr, some: IpNet) returns (longest: IpNet)
    requires some in entries && Contains(some, ip)
    ensures longest in entries && Contains(longest, ip)
    ensures forall other | other in entries && Contains(other, ip) :: other.prefix <= longest.prefix
  {
    var lengths: map<IpNet, int> := map net: IpNet | net in entries && Contains(net, ip) :: 0 - (net.prefix as int);
    assert some in lengths;
    longest := Oldest(lengths);
    hide Contains;
    forall other | other in entries && Contains(other, ip) ensures other.prefix <= longest.prefix {
      assert other in lengths;
    }
  }

  /** When no ban is covered by an exception, longest-prefix lookup drops exactly the banned
      addresses that no exception contains. */
  lemma BuiltDropsExactly(targets: set<BanTarget>, exceptions: seq<IpNet>, ip: IpAddr)
    requires forall t | t in targets :: !IsExcepted(t, exceptions)
    ensures Drops(Built(targets, exceptions), ip) <==> BannedBy(targets, ip) && !IsException(ip, exceptions)
  {
    var entries := Built(targets, exceptions);
    if net :| net in entries && Contains(net, ip) && entries[net] == Match
              && forall other | other in entries && Contains(other, ip) :: other.prefix <= net.prefix {
      var t :| t in targets && Canonical(NetworkOf(t)) == net;
      CanonicalContains(NetworkOf(t), ip);
      ExceptedIsCovered(t, exceptions);
      forall e | e in exceptions && Contains(e, ip) ensures false {
        CanonicalContains(e, ip);
        assert Canonical(e) in entries;
        SharedAddressNests(e, NetworkOf(t), ip);
      }
    }
    if BannedBy(targets, ip) && !IsException(ip, exceptions) {
      var t :| t in targets && Contains(NetworkOf(t), ip);
      CanonicalContains(NetworkOf(t), ip);
      var longest := LongestMatch(entries, ip, Canonical(NetworkOf(t)));
      forall e | e in exceptions ensures Canonical(e) != longest {
        CanonicalContains(e, ip);
      }
    }
  }

  /** The set sent to the backend: an address is dropped exactly when an active ban contains it
      and no exception does, although bans inside exceptions are left out of the set. */
  lemma ReconciledDropsExactly(bans: Bans, exceptions: seq<IpNet>, ip: IpAddr)
    ensures Drops(Built(bans.active.Keys - ExceptedTargets(bans, exceptions), exceptions), ip)
       <==> BannedBy(bans.active.Keys, ip) && !IsException(ip, exceptions)
  {
    var targets := bans.active.Keys - ExceptedTargets(bans, exceptions);
    BuiltDropsExactly(targets, exceptions, ip);
    if !IsException(ip, exceptions) {
      forall t | t in bans.active && Contains(NetworkOf(t), ip) ensures t in targets {
        ExceptedIsCovered(t, exceptions);
        forall e | e in exceptions && Covers(e, NetworkOf(t)) ensures false {
          CoversContains(e, NetworkOf(t), ip);
        }
      }
    }
  }

  // ---------- A policy update on a running set ----------

  /** Deleting an entry ignores its flag, so lifting a ban written exactly like an exception
      also deletes the exception's entry. */
  function AfterPass(bans: Bans, exceptions: seq<IpNet>): KernelSet {
    var lifted := ExceptedTargets(bans, exceptions);
    Built(bans.active.Keys - lifted, exceptions) - Keys(lifted)
  }

  function KeptExceptions(exceptions: seq<IpNet>, deleted: set<IpNet>): seq<IpNet> {
    if exceptions == [] then [] else
      (if Canonical(exceptions[0]) in deleted then [] else [exceptions[0]]) + KeptExceptions(exceptions[1..], deleted)
  }

  lemma {:induction false} KeptExceptionsAre(exceptions: seq<IpNet>, deleted: set<IpNet>, e: IpNet)
    ensures e in KeptExceptions(exceptions, deleted) <==> e in exceptions && Canonical(e) !in deleted
  {
    if exceptions != [] {
      KeptExceptionsAre(exceptions[1..], deleted, e);
      assert exceptions == [exceptions[0]] + exceptions[1..];
    }
  }

  /** Bans written alike are excepted alike. */
  lemma SameKeySameException(t: BanTarget, u: BanTarget, exceptions: seq<IpNet>)
    requires Canonical(NetworkOf(t)) == Canonical(NetworkOf(u)) && IsExcepted(u, exceptions)
    ensures IsExcepted(t, exceptions)
  {
    var net, other := NetworkOf(t), NetworkOf(u);
    ExceptedIsCovered(t, exceptions);
    ExceptedIsCovered(u, exceptions);
    var e :| e in exceptions && Covers(e, other);
    assert Contains(net, net.addr);
    CanonicalContains(net, net.addr);
    CanonicalContains(other, net.addr);
    CoversContains(e, other, net.addr);
    assert Covers(e, net);
  }

  /** After the pass an address is dropped exactly when a surviving ban contains it and no
      exception with an entry left does. */
  lemma PassDropsExactly(bans: Bans, exceptions: seq<IpNet>, ip: IpAddr)
    ensures
      var lifted := ExceptedTargets(bans, exceptions);
      Drops(AfterPass(bans, exceptions), ip)
      <==> BannedBy(bans.active.Keys - lifted, ip)
           && !exists e | e in exceptions && Canonical(e) !in Keys(lifted) :: Contains(e, ip)
  {
    var lifted := ExceptedTargets(bans, exceptions);
    var targets := bans.active.Keys - lifted;
    var kept := KeptExceptions(exceptions, Keys(lifted));
    forall e ensures e in kept <==> e in exceptions && Canonical(e) !in Keys(lifted) {
      KeptExceptionsAre(exceptions, Keys(lifted), e);
    }
    hide Contains, Canonical;
    forall t | t in targets ensures Canonical(NetworkOf(t)) !in Keys(lifted) {
      if u :| u in lifted && Canonical(NetworkOf(u)) == Canonical(NetworkOf(t)) {
        SameKeySameException(t, u, exceptions);
      }
    }
    assert AfterPass(bans, exceptions) == Built(targets, kept);
    BuiltDropsExactly(targets, kept, ip);
  }

  /** The pass leaves the right verdict for an address unless a surviving ban contains it and
      every exception containing it was written exactly like a lifted ban. */
  lemma PassIsRightExactlyWhen(bans: Bans, exceptions: seq<IpNet>, ip: IpAddr)
    ensures
      var lifted := ExceptedTargets(bans, exceptions);
      (Drops(AfterPass(bans, exceptions), ip) <==> BannedBy(bans.active.Keys, ip) && !IsException(ip, exceptions))
      <==>
      !(BannedBy(bans.active.Keys - lifted, ip)
        && IsException(ip, exceptions)
        && forall e | e in exceptions && Contains(e, ip) :: Canonical(e) in Keys(lifted))
  {
    PassDropsExactly(bans, exceptions, ip);
    ReconciledDropsExactly(bans, exceptions, ip);
    BuiltDropsExactly(bans.active.Keys - ExceptedTargets(bans, exceptions), exceptions, ip);
    hide Drops, Contains, Canonical, Keys, AfterPass, Built, IsExcepted;
  }

  /** Such addresses: a network inside a wider banned one is banned and then excepted; the pass
      lifts the inner ban, and with it the exception's entry, and the address is dropped. */
  lemma LiftedExceptionIsLost(bans: Bans, wide: IpNet, inner: IpNet, ip: IpAddr)
    requires bans.active.Keys == {Subnet(wide), Subnet(inner)} && wide.prefix < inner.prefix
    requires Contains(wide, ip) && Contains(inner, ip)
    ensures IsException(ip, [inner]) && Drops(AfterPass(bans, [inner]), ip)
  {
    hide Contains, Canonical, Drops, AfterPass;
    var exceptions, lifted := [inner], ExceptedTargets(bans, [inner]);
    assert inner in exceptions;
    assert exceptions[0] == inner && forall e | e in exceptions :: e == inner;
    assert Covers(inner, inner) && !Covers(inner, wide) by {
      CoversIsReflexive(inner);
    }
    assert Subnet(wide) in bans.active && Subnet(wide) !in lifted && Subnet(inner) in lifted;
    assert Canonical(inner) in Keys(lifted);
    assert BannedBy(bans.active.Keys - lifted, ip) by {
      assert Subnet(wide) in bans.active.Keys - lifted;
    }
    PassDropsExactly(bans, exceptions, ip);
  }

  lemma CoversIsReflexive(net: IpNet)
    ensures Covers(net, net)
  {
  }

  /** The first address of 203.0.0.0/16. */
  function Documented(): IpAddr {
    Address(V4, [true, true, false, false, true, false, true, true] + seq(24, _ => false))
  }

  /** A concrete one: 203.0.0.0/16 and 203.0.0.0/24 are banned, then the latter is excepted. */
  lemma ExceptedRangeIsDropped()
    ensures
      var ip := Documented();
      var wide: IpNet, inner: IpNet := Network(ip, 16), Network(ip, 24);
      var ban := (net: IpNet) => ActiveBan(net, "", "", 0, 60, 0, 1, None);
      var bans := Bans({}, {wide, inner}, map[Subnet(wide) := ban(wide), Subnet(inner) := ban(inner)], map[]);
      BansAgree(bans) && IsException(ip, [inner]) && Drops(AfterPass(bans, [inner]), ip)
  {
    hide IsException, AfterPass, Drops, Documented;
    var ip := Documented();
    var wide: IpNet, inner: IpNet := Network(ip, 16), Network(ip, 24);
    var ban := (net: IpNet) => ActiveBan(net, "", "", 0, 60, 0, 1, None);
    var bans := Bans({}, {wide, inner}, map[Subnet(wide) := ban(wide), Subnet(inner) := ban(inner)], map[]);
    assert bans.active.Keys == SubnetTargets(bans.nets);
    LiftedExceptionIsLost(bans, wide, inner, ip);
  }
}
