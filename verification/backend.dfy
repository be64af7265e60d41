/** The ban backend as the set of entries it holds.  Any call may be refused, with no effect. */
module Backend {
  import opened Networks
  import opened AggregateState

  class BanBackend {
    var entries: set<BanTarget>

    constructor ()
      ensures entries == {}
    {
      entries := {};
    }

    method Add(target: BanTarget) returns (ok: bool)
      modifies this
      ensures entries == if ok then old(entries) + {target} else old(entries)
    {
      ok := *;
      if ok {
        entries := entries + {target};
      }
    }

    method Remove(target: BanTarget) returns (ok: bool)
      modifies this
      ensures entries == if ok then old(entries) - {target} else old(entries)
    {
      ok := *;
      if ok {
        entries := entries - {target};
      }
    }

    /** Replace every entry by the active targets. */
    method Reconcile(active: set<BanTarget>) returns (ok: bool)
      modifies this
      ensures entries == if ok then active else old(entries)
    {
      ok := *;
      if ok {
        entries := active;
      }
    }
  }
}
