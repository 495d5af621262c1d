/** class IceController of src/ice/ice_controller.cpp, updated in place and proved against the
    relations of IceScheduler and the functions of IceSelection. The connection objects belong
    to the ports, so their state comes in as a parameter. */
module IceController {
  import opened Wrappers
  import opened IceSelection
  import opened IceScheduler

  class IceController {
    var connections: seq<Id>
    var pinged: set<Id>
    var unpinged: set<Id>
    var selected: Option<Id>

    function View(): Ctl
      reads this
    {
      Ctl(connections, pinged, unpinged, selected)
    }

    constructor ()
      ensures View() == Init().ctl
    {
      connections, pinged, unpinged, selected := [], {}, {}, None;
    }

    method AddConnection(id: Id)
      modifies `connections, `unpinged
      ensures View() == old(View()).(connections := old(connections) + [id], unpinged := old(unpinged) + {id})
    {
      connections := connections + [id];
      unpinged := unpinged + {id};
    }

    method MarkConnectionPinged(id: Id)
      modifies `pinged, `unpinged
      ensures View() == MarkPinged(old(View()), id)
    {
      if id !in pinged {
        pinged := pinged + {id};
        unpinged := unpinged - {id};
      }
    }

    method OnConnectionDestroyed(id: Id)
      modifies `connections, `pinged, `unpinged
      ensures View() == old(View()).(connections := Remove(old(connections), id),
                                     pinged := old(pinged) - {id}, unpinged := old(unpinged) - {id})
    {
      pinged := pinged - {id};
      unpinged := unpinged - {id};
      var i := 0;
      while i < |connections| && connections[i] != id
        invariant 0 <= i <= |connections|
        invariant Remove(connections, id) == connections[..i] + Remove(connections[i..], id)
      {
        assert connections[i..][1..] == connections[i + 1..];
        i := i + 1;
      }
      if i < |connections| {
        assert connections[i..][1..] == connections[i + 1..];
        connections := connections[..i] + connections[i + 1..];
      }
    }

    method HasPingable(cs: Conns, among: set<Id>, now: int) returns (found: bool)
      ensures found == exists id :: id in among && Pingable(cs, selected, id, now)
    {
      var rest := among;
      while rest != {}
        invariant rest <= among
        invariant forall id :: id in among - rest ==> !Pingable(cs, selected, id, now)
        decreases rest
      {
        var id :| id in rest;
        if Pingable(cs, selected, id, now) {
          return true;
        }
        rest := rest - {id};
      }
      return false;
    }

    /** The selected connection if it is writable and due, otherwise the most overdue one. */
    method FindNextPingableConnection(cs: Conns, now: int) returns (pick: Option<Id>)
      requires forall id :: id in pinged + unpinged ==> id in cs
      modifies `pinged, `unpinged
      ensures Find(cs, old(View()), now, pick, View())
    {
      if SelectedDue(cs, selected, now) {
        return selected;
      }
      var hasPingable := HasPingable(cs, unpinged, now);
      if !hasPingable {
        unpinged := unpinged + pinged;
        pinged := {};
      }
      assert View() == Refill(cs, old(View()), now);
      pick := MostOverdue(cs, now);
    }

    method MostOverdue(cs: Conns, now: int) returns (pick: Option<Id>)
      requires forall id :: id in unpinged ==> id in cs
      ensures pick.None? ==> forall id :: id in unpinged ==> !Pingable(cs, selected, id, now)
      ensures pick.Some? ==> LeastPingable(cs, selected, unpinged, now, pick.value)
    {
      pick := None;
      var rest := unpinged;
      while rest != {}
        invariant rest <= unpinged
        invariant pick.None? ==> forall id :: id in unpinged - rest ==> !Pingable(cs, selected, id, now)
        invariant pick.Some? ==> LeastPingable(cs, selected, unpinged - rest, now, pick.value)
        decreases rest
      {
        var id :| id in rest;
        rest := rest - {id};
        if !Pingable(cs, selected, id, now) {
          continue;
        }
        if MorePingable(cs, id, pick) {
          pick := Some(id);
        }
      }
      assert unpinged - {} == unpinged;
    }

    // _more_pingable
    static predicate MorePingable(cs: Conns, id: Id, other: Option<Id>)
      requires id in cs && (other.Some? ==> other.value in cs)
    {
      other.None? || cs[id].lastPingSent < cs[other.value].lastPingSent
    }

    /** Both rate limits: the connection to ping, if any, and the interval of the next check. */
    method SelectConnectionToPing(cs: Conns, lastPingSent: int, now: int) returns (pick: Option<Id>, interval: int)
      requires forall id :: id in pinged + unpinged ==> id in cs
      requires Known(cs, connections)
      modifies `pinged, `unpinged
      ensures Select(cs, old(View()), lastPingSent, now, pick, View())
      ensures interval == ChannelInterval(cs, old(View()))
    {
      var needMore := false;
      for i := 0 to |connections|
        invariant forall j :: 0 <= j < i ==> cs[connections[j]].numPings >= MIN_PINGS
      {
        if cs[connections[i]].numPings < MIN_PINGS {
          needMore := true;
          break;
        }
      }
      interval := if WeakChannel(cs, selected) || needMore then WEAK_PING_INTERVAL else STRONG_PING_INTERVAL;
      pick := None;
      if now >= lastPingSent + interval {
        pick := FindNextPingableConnection(cs, now);
      }
    }

    /** Sorts the connections and returns the one worth switching to. */
    method SortAndSwitchConnection(cs: Conns) returns (target: Option<Id>)
      requires Known(cs, connections) && (selected.Some? ==> selected.value in cs)
      modifies `connections
      ensures connections == StableSort(cs, old(connections))
      ensures target == SwitchTarget(cs, connections, selected)
      ensures target.Some? ==> forall i :: 0 <= i < |connections| ==> !Better(cs[connections[i]], cs[target.value])
      ensures target.Some? <==> exists c :: WorthSwitching(cs, old(connections), selected, c)
    {
      StableSortSorts(cs, connections);
      SwitchTargetExactly(cs, connections, selected);
      connections := Sort(cs, connections);
      hide StableSort, Better, WorthSwitching;
      if connections != [] {
        BetterIsStrictWeakOrder(cs[connections[0]], cs[connections[0]], cs[connections[0]]);
      }
      if connections == [] || !ReadyToSend(cs[connections[0]]) || selected == Some(connections[0]) {
        return None;
      }
      if selected == None || cs[connections[0]].rtt <= cs[selected.value].rtt - MIN_IMPROVEMENT {
        return Some(connections[0]);
      }
      return None;
    }

    // absl::c_stable_sort with the comparison of the lambda.
    static method Sort(cs: Conns, ids: seq<Id>) returns (sorted: seq<Id>)
      requires Known(cs, ids)
      ensures sorted == StableSort(cs, ids)
    {
      var i := |ids|;
      sorted := [];
      while i > 0
        invariant 0 <= i <= |ids|
        invariant sorted == StableSort(cs, ids[i..])
      {
        i := i - 1;
        assert ids[i..][1..] == ids[i + 1..];
        sorted := Insert(cs, ids[i], sorted);
      }
      assert ids[0..] == ids;
    }
  }
}
