/** The balance object of balance.py, changed in place by its methods. */
module BalanceObject {
  import opened Networks
  import opened Ledger

  class Balance {
    var ownIps: set<Ip>
    var delegatedIps: Shares
    var receivedIps: Shares
    var mapServers: MapServers
    var locators: Locators

    function Value(): Holdings
      reads this
    {
      Holdings(ownIps, delegatedIps, receivedIps, mapServers, locators)
    }

    /** An unpickled copy of stored holdings. */
    constructor (h: Holdings)
      ensures Value() == h
    {
      ownIps, delegatedIps, receivedIps, mapServers, locators := h.own, h.delegated, h.received, h.mapServers, h.locators;
    }

    method AddOwnIps(ips: set<Ip>)
      modifies this
      ensures Value() == old(Value()).(own := old(ownIps) + ips)
    {
      ownIps := ownIps + ips;
    }

    method RemoveOwnIps(ips: set<Ip>)
      modifies this
      ensures Value() == old(Value()).(own := old(ownIps) - ips)
    {
      ownIps := ownIps - ips;
    }

    method AddDelegatedIps(a: Address, ips: set<Ip>)
      modifies this
      ensures Value() == old(Value()).(delegated := AddShare(old(delegatedIps), a, ips))
    {
      if a in delegatedIps {
        delegatedIps := delegatedIps[a := delegatedIps[a] + ips];
      } else {
        delegatedIps := delegatedIps[a := ips];
        assert {} + ips == ips;
      }
    }

    /** Fails, as on a missing key, if nothing is recorded for a. */
    method RemoveDelegatedIps(a: Address, ips: set<Ip>) returns (ok: bool)
      modifies this
      ensures ok == (a in old(delegatedIps))
      ensures Value() == if ok then old(Value()).(delegated := RemoveShare(old(delegatedIps), a, ips)) else old(Value())
    {
      ok := a in delegatedIps;
      if ok {
        delegatedIps := delegatedIps[a := delegatedIps[a] - ips];
        if delegatedIps[a] == {} { delegatedIps := delegatedIps - {a}; }
      }
    }

    method AddReceivedIps(a: Address, ips: set<Ip>)
      modifies this
      ensures Value() == old(Value()).(received := AddShare(old(receivedIps), a, ips))
    {
      if a in receivedIps {
        receivedIps := receivedIps[a := receivedIps[a] + ips];
      } else {
        receivedIps := receivedIps[a := ips];
        assert {} + ips == ips;
      }
    }

    method RemoveReceivedIps(a: Address, ips: set<Ip>) returns (ok: bool)
      modifies this
      ensures ok == (a in old(receivedIps))
      ensures Value() == if ok then old(Value()).(received := RemoveShare(old(receivedIps), a, ips)) else old(Value())
    {
      ok := a in receivedIps;
      if ok {
        receivedIps := receivedIps[a := receivedIps[a] - ips];
        if receivedIps[a] == {} { receivedIps := receivedIps - {a}; }
      }
    }

    method SetMapServer(records: seq<MapServer>)
      modifies this
      ensures Value() == old(Value()).(mapServers := MapServersOf(records), locators := map[])
    {
      mapServers := map[];
      for i := 0 to |records|
        invariant Value() == old(Value()).(mapServers := MapServersOf(records[..i]))
      {
        assert records[..i + 1][..i] == records[..i];
        mapServers := mapServers[records[i].ip := records[i].address];
      }
      assert records[..|records|] == records;
      locators := map[];
    }

    /** Every entry holds the same list, which each record overwrites. Fails, as on reading a number
        from an empty byte string, if a field is zero. */
    method SetLocator(records: seq<Locator>) returns (ok: bool)
      modifies this
      ensures ok <==> forall i :: 0 <= i < |records| ==> !Unreadable(records[i].weights)
      ensures ok ==> Value() == old(Value()).(mapServers := map[], locators := LocatorsOf(records))
    {
      locators := map[];
      var entries: set<Ip> := {};
      var shared := Weights(0, 0);
      for i := 0 to |records|
        invariant Value() == old(Value()).(locators := map[])
        invariant entries == (set r | r in records[..i] :: r.ip) && (i > 0 ==> shared == records[i - 1].weights)
        invariant forall j :: 0 <= j < i ==> !Unreadable(records[j].weights)
      {
        if Unreadable(records[i].weights) { return false; }
        assert records[..i + 1] == records[..i] + [records[i]];
        shared := records[i].weights;
        entries := entries + {records[i].ip};
      }
      assert records[..|records|] == records;
      locators := map ip | ip in entries :: shared;
      mapServers := map[];
      ok := true;
    }

    predicate InOwnIps(ips: set<Ip>)
      reads this
    {
      ips <= ownIps
    }

    /** The loop over the delegations, which come in no particular order. */
    method AffectedDelegatedIps(ips: set<Ip>) returns (affected: Shares)
      ensures affected == Affected(Value(), ips)
    {
      affected := map[];
      var todo := delegatedIps.Keys;
      while todo != {}
        invariant todo <= delegatedIps.Keys
        invariant forall a :: a in affected <==> a in delegatedIps && a !in todo && ips * delegatedIps[a] != {}
        invariant forall a :: a in affected ==> affected[a] == ips * delegatedIps[a]
      {
        SomeAddress(todo);
        var a :| a in todo;
        var joint := ips * delegatedIps[a];
        if joint != {} { affected := affected[a := joint]; }
        todo := todo - {a};
      }
      IsAffected(Value(), ips, affected);
    }
  }
}
