/** class IceTransportChannel of src/ice/ice_transport_channel.cpp over its controller object. The state of
    the connection objects comes in as a parameter. */
module IceTransportChannel {
  import opened Wrappers
  import opened IceSelection
  import opened IceChannel
  import Sched = IceScheduler
  import Controller = IceController

  class IceTransportChannel {
    const controller: Controller.IceController
    var selected: Option<Id>
    var had: bool
    var been: bool
    var writable: bool
    var receiving: bool
    var state: TransportState
    var signals: seq<TransportState>
    var writableSignals: nat    // how often signal_writable_state_change
    var receivingSignals: nat   // and signal_receiving_state_change were sent
    var marked: set<Id>         // connections with set_selected(true)
    var pinging: bool

    ghost function View(links: Conns): Channel
      reads this, controller
    {
      Channel(links, controller.connections, selected, controller.selected, had, been, writable, receiving, state,
          signals)
    }

    // Exactly the selected connection is marked as such.
    predicate Marked()
      reads this
    {
      marked == Of(selected)
    }

    constructor ()
      ensures View(map[]) == INIT && fresh(controller) && Marked() && !pinging
    {
      controller := new Controller.IceController();
      selected, had, been, writable, receiving, state, signals := None, false, false, false, false, New, [];
      writableSignals, receivingSignals, marked, pinging := 0, 0, {}, false;
    }

    method AddConnection(links: Conns, id: Id, conn: Conn)
      modifies `had, controller
      ensures View(links[id := conn]) == Add(old(View(links)), id, conn)
    {
      had := true;
      controller.AddConnection(id);
    }

    method SetReceiving(r: bool)
      modifies `receiving, `receivingSignals
      ensures receiving == r
      ensures receivingSignals == old(receivingSignals) + if r == old(receiving) then 0 else 1
    {
      if r == receiving {
        return;
      }
      receiving := r;
      receivingSignals := receivingSignals + 1;
    }

    method SetWritable(w: bool)
      modifies `writable, `been, `writableSignals
      ensures writableSignals == old(writableSignals) + if w == old(writable) then 0 else 1
      ensures writable == w && been == (old(been) || (w && !old(writable)))
    {
      if w == writable {
        return;
      }
      if w {
        been := true;
      }
      writable := w;
      writableSignals := writableSignals + 1;
    }

    method ComputeTransportState(links: Conns) returns (s: TransportState)
      requires Selection(View(links))
      ensures s == Compute(had, been, AnyActive(links), writable)
    {
      var active := false;
      KnownIds(View(links));
      var i := 0;
      while i < |controller.connections| && !active
        invariant i <= |controller.connections|
        invariant active ==> AnyActive(links)
        invariant !active ==> forall k :: 0 <= k < i ==> !Active(links[controller.connections[k]])
      {
        active := Active(links[controller.connections[i]]);
        i := i + 1;
      }
      if !active {
        AllListed(View(links));
      }
      if had && !active {
        return Failed;
      }
      if been && !writable {
        return Disconnected;
      }
      if !had && !active {
        return New;
      }
      if active && !writable {
        return Checking;
      }
      return Connected;
    }

    method HasReceiving(links: Conns) returns (any: bool)
      requires Selection(View(links))
      ensures any == AnyReceiving(links)
    {
      any := false;
      KnownIds(View(links));
      var i := 0;
      while i < |controller.connections| && !any
        invariant i <= |controller.connections|
        invariant any ==> AnyReceiving(links)
        invariant !any ==> forall k :: 0 <= k < i ==> !links[controller.connections[k]].receiving
      {
        any := links[controller.connections[i]].receiving;
        i := i + 1;
      }
      if !any {
        AllListed(View(links));
      }
    }

    method Report(s: TransportState)
      modifies `state, `signals
      ensures state == s && signals == if s == old(state) then old(signals) else old(signals) + [s]
    {
      if s != state {
        state := s;
        signals := signals + [s];
      }
    }

    method UpdateState(links: Conns)
      requires Selection(View(links))
      modifies `writable, `been, `writableSignals, `receiving, `receivingSignals, `state, `signals
      ensures View(links) == Update(old(View(links)))
      ensures writableSignals == old(writableSignals) + if writable == old(writable) then 0 else 1
      ensures receivingSignals == old(receivingSignals) + if receiving == old(receiving) then 0 else 1
    {
      hide AnyReceiving, AnyActive, Compute;
      SetWritable(selected.Some? && Writable(links[selected.value]));
      var any := HasReceiving(links);
      SetReceiving(any);
      var s := ComputeTransportState(links);
      Report(s);
    }

    method SwitchSelectedConnection(to: Option<Id>)
      modifies `selected, `marked, controller`selected
      ensures selected == to && controller.selected == if to.Some? then to else old(controller.selected)
      ensures marked == old(marked) - Of(old(selected)) + Of(to)
    {
      var before := selected;
      selected := to;
      if before.Some? {
        marked := marked - {before.value};
      }
      if selected == None {
        return;
      }
      marked := marked + {selected.value};
      controller.selected := selected;
    }

    method MaybeStartPinging(memory: Conns, now: int)
      modifies `pinging
      ensures pinging == (old(pinging) ||
                          exists id :: id in controller.connections &&
                              Sched.Pingable(memory, controller.selected, id, now))
    {
      if pinging {
        return;
      }
      pinging := controller.HasPingable(memory, (set id | id in controller.connections), now);
    }

    // Sorts, and switches to the connection worth it.
    method SortAndSwitch(links: Conns, stale: Conn)
      requires Selection(View(links)) && Marked()
      modifies `selected, `marked, controller
      ensures View(links) == Sort(old(View(links)), stale) && Marked()
    {
      KnownIds(View(links));
      var memory := Memory(links, controller.selected, stale);
      StableSortIgnores(links, memory, controller.connections);
      hide StableSort, SwitchTarget, Selection;
      var target := controller.SortAndSwitchConnection(memory);
      if target.Some? {
        SwitchSelectedConnection(target);
      }
    }

    method SortConnectionsAndUpdateState(links: Conns, stale: Conn, now: int)
      requires Selection(View(links)) && Marked()
      modifies this, controller
      ensures View(links) == Update(Sort(old(View(links)), stale)) && Marked()
      ensures pinging == (old(pinging) || exists id ::
                          id in controller.connections &&
                              Sched.Pingable(Memory(links, controller.selected, stale), controller.selected, id, now))
    {
      SortKeeps(View(links), stale);
      hide Sort, Update, Selection, Memory;
      SortAndSwitch(links, stale);
      UpdateState(links);
      MaybeStartPinging(Memory(links, controller.selected, stale), now);
    }

    // The controller forgets the connection; the channel unselects it.
    method Forget(links: Conns, id: Id) returns (wasSelected: bool)
      requires Marked()
      modifies `selected, `marked, controller
      ensures wasSelected == (old(selected) == Some(id))
      ensures View(links - {id}) == Drop(old(View(links)), id) && Marked()
    {
      controller.OnConnectionDestroyed(id);
      wasSelected := selected == Some(id);
      if wasSelected {
        SwitchSelectedConnection(None);
      }
    }

    method OnConnectionDestroyed(links: Conns, id: Id, now: int)
      requires Selection(View(links)) && Marked() && id in links
      modifies this, controller
      ensures View(links - {id}) == Destroy(old(View(links)), id) && Marked()
    {
      hide Sort, Update, Selection, Drop;
      DropKeeps(View(links), id);
      var wasSelected := Forget(links, id);
      if wasSelected {
        SortConnectionsAndUpdateState(links - {id}, links[id], now);
      } else {
        UpdateState(links - {id});
      }
    }
  }

  function Of(id: Option<Id>): set<Id> { if id.Some? then {id.value} else {} }

  lemma AllListed(c: Channel)
    requires Selection(c)
    ensures forall id :: id in c.links ==> exists k :: 0 <= k < |c.ids| && c.ids[k] == id
  {
    forall id | id in c.links
      ensures exists k :: 0 <= k < |c.ids| && c.ids[k] == id
    {
      assert id in multiset(c.ids);
    }
  }

  // Sorting looks at the listed connections only.
  lemma {:induction false} InsertIgnores(cs: Conns, more: Conns, x: Id, ids: seq<Id>)
    requires x in cs && Known(cs, ids) && cs.Keys <= more.Keys && forall k :: k in cs ==> cs[k] == more[k]
    ensures Insert(cs, x, ids) == Insert(more, x, ids)
  {
    if ids != [] {
      InsertIgnores(cs, more, x, ids[1..]);
    }
  }

  lemma {:induction false} StableSortIgnores(cs: Conns, more: Conns, ids: seq<Id>)
    requires Known(cs, ids) && cs.Keys <= more.Keys && forall k :: k in cs ==> cs[k] == more[k]
    ensures StableSort(cs, ids) == StableSort(more, ids)
  {
    if ids != [] {
      StableSortIgnores(cs, more, ids[1..]);
      InsertIgnores(cs, more, ids[0], StableSort(cs, ids[1..]));
    }
  }
}
