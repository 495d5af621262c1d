/** The transport channel of src/ice/ice_transport_channel.cpp: registration, selection and the aggregate
    state it reports, over whole runs of connection events. */
module IceChannel {
  import opened Wrappers
  import opened IceSelection
  import Sched = IceScheduler

  datatype TransportState = New | Checking | Connected | Completed | Failed | Disconnected | Closed

  /** `chosen` is the controller's own selected connection: a second pointer, which is not cleared when
      the channel's is. */
  datatype Channel = Channel(
    links: Conns, ids: seq<Id>, selected: Option<Id>, chosen: Option<Id>,
    had: bool, been: bool, writable: bool, receiving: bool,
    state: TransportState, signals: seq<TransportState>)

  const INIT := Channel(map[], [], None, None, false, false, false, false, New, [])

  predicate Active(c: Conn) { c.writeState != WRITE_TIMEOUT }

  ghost predicate AnyActive(cs: Conns) { exists id :: id in cs && Active(cs[id]) }
  ghost predicate AnyReceiving(cs: Conns) { exists id :: id in cs && cs[id].receiving }

  ghost predicate SelectedWritable(c: Channel) {
    c.selected.Some? && c.selected.value in c.links && Writable(c.links[c.selected.value])
  }

  // ------------------------------------------------------------------ invariants

  /** The channel's selected connection is registered, and the controller agrees with it. */
  ghost predicate Selection(c: Channel) {
    && multiset(c.ids) == multiset(c.links.Keys)
    && (c.selected.Some? ==> c.selected.value in c.links && c.chosen == c.selected)
    && (c.links != map[] ==> c.had)
  }

  predicate Adjacent(ss: seq<TransportState>) { forall i :: 0 < i < |ss| ==> ss[i - 1] != ss[i] }

  predicate DownOnlyAfterUp(ss: seq<TransportState>) {
    forall j :: 0 <= j < |ss| && ss[j] == Disconnected ==> Connected in ss[..j]
  }

  predicate NoCheckAfterUp(ss: seq<TransportState>) {
    forall i, j :: 0 <= i < j < |ss| && ss[i] == Connected ==> ss[j] != Checking
  }

  predicate Reported(ss: seq<TransportState>) {
    forall i :: 0 <= i < |ss| ==> ss[i] in {Checking, Connected, Failed, Disconnected}
  }

  /** What the state signals of a channel look like. */
  predicate Trace(ss: seq<TransportState>) {
    Reported(ss) && Adjacent(ss) && DownOnlyAfterUp(ss) && NoCheckAfterUp(ss)
  }

  function Last(ss: seq<TransportState>): TransportState { if ss == [] then New else ss[|ss| - 1] }

  ghost predicate Flags(c: Channel) {
    && c.state == Last(c.signals) && Trace(c.signals)
    && (c.been <==> Connected in c.signals)
    && (c.been ==> c.state != Checking)
    && (c.signals != [] ==> c.had)
    && (c.writable ==> c.been)
  }

  ghost predicate Aggregate(c: Channel) {
    && (c.writable <==> SelectedWritable(c))
    && (c.state == Connected <==> SelectedWritable(c))
    && (c.receiving <==> AnyReceiving(c.links))
  }

  ghost predicate Inv(c: Channel) { Selection(c) && Flags(c) && Aggregate(c) }

  // ------------------------------------------------------------------ operations

  ghost function Compute(had: bool, been: bool, active: bool, writable: bool): TransportState {
    if had && !active then Failed
    else if been && !writable then Disconnected
    else if !had && !active then New
    else if active && !writable then Checking
    else Connected
  }

  ghost function Report(c: Channel, s: TransportState): Channel {
    if s == c.state then c else c.(state := s, signals := c.signals + [s])
  }

  // _update_state, with _set_writable, _set_receiving and _compute_ice_transport_state.
  ghost function Update(c: Channel): Channel {
    var w := SelectedWritable(c);
    var been := c.been || (w && !c.writable);
    Report(c.(been := been, writable := w, receiving := AnyReceiving(c.links)),
           Compute(c.had, been, AnyActive(c.links), w))
  }

  // The memory the controller reads: a destroyed connection it still refers to reads as `stale`.
  function Memory(links: Conns, chosen: Option<Id>, stale: Conn): Conns {
    if chosen.Some? && chosen.value !in links then links[chosen.value := stale] else links
  }

  // sort_and_switch_connection followed by _maybe_switch_selected_connection. (The list holds registered
  // connections only: Selection.)
  ghost function Sort(c: Channel, stale: Conn): Channel {
    if !Known(c.links, c.ids) then c
    else
      var ids := StableSort(c.links, c.ids);
      var target := SwitchTarget(Memory(c.links, c.chosen, stale), ids, c.chosen);
      if target == None then c.(ids := ids) else c.(ids := ids, selected := target, chosen := target)
  }

  function SetConn(c: Channel, id: Id, conn: Conn): Channel { c.(links := c.links[id := conn]) }

  function Add(c: Channel, id: Id, conn: Conn): Channel {
    c.(links := c.links[id := conn], ids := c.ids + [id], had := true)
  }

  // The controller forgets the connection, the channel unselects it; `chosen` stays.
  function Drop(c: Channel, id: Id): Channel {
    c.(links := c.links - {id}, ids := Sched.Remove(c.ids, id),
       selected := if c.selected == Some(id) then None else c.selected)
  }

  // _on_connection_destroyed. The object is deleted only after the signal, so it is still readable here.
  ghost function Destroy(c: Channel, id: Id): Channel
    requires id in c.links
  {
    if c.selected == Some(id) then Update(Sort(Drop(c, id), c.links[id])) else Update(Drop(c, id))
  }

  datatype Event =
    | Register(id: Id, conn: Conn)                  // _add_connection
    | Change(id: Id, conn: Conn, stale: Conn)       // signal_state_change
    | Quiet(id: Id, conn: Conn)                     // a change that is not signalled, of the RTT for one
    | Refresh(stale: Conn)                          // _sort_connections_and_update_state
    | Destroyed(id: Id)                             // signal_connection_destroy

  /** Whether the event can happen: a new object is no registered one and starts out silent, and only
      registered connections signal. */
  predicate Possible(c: Channel, e: Event) {
    match e
    case Register(id, conn) => id !in c.links && conn.writeState == WRITE_INIT && !conn.receiving
    case Change(id, conn, _) => id in c.links
    case Quiet(id, conn) =>
      id in c.links && conn.writeState == c.links[id].writeState && conn.receiving == c.links[id].receiving
    case Refresh(_) => true
    case Destroyed(id) => id in c.links
  }

  ghost function Apply(c: Channel, e: Event): Channel {
    if !Possible(c, e) then c
    else match e
      case Register(id, conn) => Add(c, id, conn)
      case Change(id, conn, stale) => Update(Sort(SetConn(c, id, conn), stale))
      case Quiet(id, conn) => SetConn(c, id, conn)
      case Refresh(stale) => Update(Sort(c, stale))
      case Destroyed(id) => Destroy(c, id)
  }

  ghost function Exec(es: seq<Event>): Channel {
    if es == [] then INIT else Apply(Exec(es[..|es| - 1]), es[|es| - 1])
  }

  // --------------------------------------------------------------- selection

  // Everything but the connections and the selection is the same.
  predicate SameReport(c: Channel, d: Channel) {
    d == c.(links := d.links, ids := d.ids, selected := d.selected, chosen := d.chosen, had := d.had)
  }

  lemma KnownIds(c: Channel)
    requires Selection(c)
    ensures Known(c.links, c.ids)
  {
    forall i | 0 <= i < |c.ids|
      ensures c.ids[i] in c.links
    {
      assert c.ids[i] in multiset(c.ids);
    }
  }

  lemma SortKeeps(c: Channel, stale: Conn)
    requires Selection(c)
    ensures Selection(Sort(c, stale)) && SameReport(c, Sort(c, stale)) && Sort(c, stale).had == c.had
    ensures Sort(c, stale).links == c.links
  {
    KnownIds(c);
    var ids := StableSort(c.links, c.ids);
    var target := SwitchTarget(Memory(c.links, c.chosen, stale), ids, c.chosen);
    hide StableSort, SwitchTarget, Known;
    assert target.Some? ==> target.value in multiset(ids);
  }

  lemma SetConnKeeps(c: Channel, id: Id, conn: Conn)
    requires Selection(c) && id in c.links
    ensures Selection(SetConn(c, id, conn)) && SameReport(c, SetConn(c, id, conn))
  {
    assert c.links[id := conn].Keys == c.links.Keys;
  }

  lemma AddKeeps(c: Channel, id: Id, conn: Conn)
    requires Selection(c) && id !in c.links
    ensures Selection(Add(c, id, conn)) && SameReport(c, Add(c, id, conn)) && Add(c, id, conn).had
  {
    assert c.links[id := conn].Keys == c.links.Keys + {id};
  }

  lemma DropKeeps(c: Channel, id: Id)
    requires Selection(c) && id in c.links
    ensures Selection(Drop(c, id)) && SameReport(c, Drop(c, id)) && Drop(c, id).had
  {
    Sched.RemoveOne(c.ids, id);
    assert (c.links - {id}).Keys == c.links.Keys - {id};
  }

  // -------------------------------------------------------------------- state

  lemma TraceGrows(ss: seq<TransportState>, s: TransportState)
    requires Trace(ss) && s in {Checking, Connected, Failed, Disconnected} && s != Last(ss)
    requires s == Disconnected ==> Connected in ss
    requires s == Checking ==> Connected !in ss
    ensures Trace(ss + [s])
  {
    var all := ss + [s];
    forall j | 0 <= j < |all| && all[j] == Disconnected
      ensures Connected in all[..j]
    {
      if j < |ss| {
        assert all[..j] == ss[..j];
      } else {
        assert all[..j] == ss;
      }
    }
  }

  lemma UpdateRestoresInv(c: Channel)
    requires Selection(c) && Flags(c)
    ensures Inv(Update(c))
  {
    hide Trace;
    assert c.signals != [] ==> Last(c.signals) in c.signals;
    var d := Update(c);
    if d.state != c.state {
      TraceGrows(c.signals, d.state);
    }
    assert AnyReceiving(d.links) == d.receiving;
  }

  lemma SameAggregate(c: Channel, id: Id, conn: Conn)
    requires Inv(c) && Possible(c, Quiet(id, conn))
    ensures Aggregate(SetConn(c, id, conn))
  {
    var d := SetConn(c, id, conn);
    if AnyReceiving(c.links) {
      var k :| k in c.links && c.links[k].receiving;
      assert k in d.links && d.links[k].receiving;
    }
    if AnyReceiving(d.links) {
      var k :| k in d.links && d.links[k].receiving;
      assert k in c.links && c.links[k].receiving;
    }
  }

  lemma AddAggregate(c: Channel, id: Id, conn: Conn)
    requires Inv(c) && Possible(c, Register(id, conn))
    ensures Aggregate(Add(c, id, conn))
  {
    var d := Add(c, id, conn);
    if AnyReceiving(c.links) {
      var k :| k in c.links && c.links[k].receiving;
      assert k in d.links && d.links[k].receiving;
    }
    if AnyReceiving(d.links) {
      var k :| k in d.links && d.links[k].receiving;
      assert k in c.links && c.links[k].receiving;
    }
  }

  // What an event does before it recomputes the state, if it does.
  ghost function Moved(c: Channel, e: Event): Channel
    requires Possible(c, e)
  {
    match e
    case Register(id, conn) => Add(c, id, conn)
    case Change(id, conn, stale) => Sort(SetConn(c, id, conn), stale)
    case Quiet(id, conn) => SetConn(c, id, conn)
    case Refresh(stale) => Sort(c, stale)
    case Destroyed(id) => if c.selected == Some(id) then Sort(Drop(c, id), c.links[id]) else Drop(c, id)
  }

  predicate Updates(e: Event) { !e.Register? && !e.Quiet? }

  lemma MovedKeeps(c: Channel, e: Event)
    requires Selection(c) && Possible(c, e)
    ensures Selection(Moved(c, e)) && SameReport(c, Moved(c, e)) && (c.had ==> Moved(c, e).had)
  {
    hide Sort, Add, Drop, Selection;
    match e
    case Register(id, conn) => AddKeeps(c, id, conn);
    case Change(id, conn, stale) =>
      SetConnKeeps(c, id, conn);
      SortKeeps(SetConn(c, id, conn), stale);
    case Quiet(id, conn) =>
      SetConnKeeps(c, id, conn);
    case Refresh(stale) => SortKeeps(c, stale);
    case Destroyed(id) =>
      DropKeeps(c, id);
      SortKeeps(Drop(c, id), c.links[id]);
  }

  lemma ApplyMoves(c: Channel, e: Event)
    requires Possible(c, e)
    ensures Apply(c, e) == if Updates(e) then Update(Moved(c, e)) else Moved(c, e)
  {
    hide Update, Sort, Drop, SetConn, Add;
  }

  /** Every event keeps the invariant. */
  lemma StepKeepsInv(c: Channel, e: Event)
    requires Inv(c)
    ensures Inv(Apply(c, e))
  {
    hide Trace, Update, Aggregate, Selection, Add, SetConn, Sort, Drop;
    if Possible(c, e) {
      ApplyMoves(c, e);
      MovedKeeps(c, e);
      if Updates(e) {
        UpdateRestoresInv(Moved(c, e));
      } else if e.Register? {
        AddAggregate(c, e.id, e.conn);
      } else {
        SameAggregate(c, e.id, e.conn);
      }
    }
  }

  /** After every run: the channel is connected exactly when its selected connection is writable, it is
      receiving exactly when some registered connection is, and its signals form a Trace. */
  lemma {:induction false} ExecKeepsInv(es: seq<Event>)
    ensures Inv(Exec(es))
  {
    if es != [] {
      ExecKeepsInv(es[..|es| - 1]);
      StepKeepsInv(Exec(es[..|es| - 1]), es[|es| - 1]);
    }
  }

  // Some registered connection has not timed out.
  ghost predicate SomeAlive(c: Channel) { exists id :: id in c.links && c.links[id].writeState != 3 }

  // The selected connection has write state 0.
  ghost predicate CanWrite(c: Channel) {
    c.selected.Some? && c.selected.value in c.links && c.links[c.selected.value].writeState == 0
  }

  ghost predicate Meaning(c: Channel) {
    && (c.state == Failed <==> c.had && !SomeAlive(c))
    && (c.state == New <==> !c.had)
    && (c.state == Connected <==> CanWrite(c))
    && (c.state == Disconnected <==> SomeAlive(c) && !CanWrite(c) && Connected in c.signals)
    && (c.state == Checking <==> SomeAlive(c) && !CanWrite(c) && Connected !in c.signals)
  }

  lemma SameWords(c: Channel)
    ensures SomeAlive(c) <==> AnyActive(c.links)
    ensures CanWrite(c) <==> SelectedWritable(c)
  {
    if AnyActive(c.links) {
      var id :| id in c.links && Active(c.links[id]);
      assert id in c.links && c.links[id].writeState != 3;
    }
    if SomeAlive(c) {
      var id :| id in c.links && c.links[id].writeState != 3;
      assert id in c.links && Active(c.links[id]);
    }
  }

  lemma UpdateMeaning(c: Channel)
    requires Selection(c) && Flags(c)
    ensures Meaning(Update(c))
  {
    UpdateRestoresInv(c);
    SameWords(Update(c));
    hide Trace, SomeAlive, CanWrite, AnyActive, SelectedWritable;
  }

  /** What the reported state says, right after it has been computed. */
  lemma StateMeaning(es: seq<Event>, e: Event)
    requires Possible(Exec(es), e) && Updates(e)
    ensures Meaning(Exec(es + [e]))
  {
    hide Apply, Moved, Trace, Update, Aggregate;
    ExecKeepsInv(es);
    assert (es + [e])[..|es|] == es;
    ApplyMoves(Exec(es), e);
    MovedKeeps(Exec(es), e);
    UpdateMeaning(Moved(Exec(es), e));
  }

  lemma ApplyGrows(c: Channel, e: Event)
    requires Selection(c)
    ensures c.signals <= Apply(c, e).signals && (c.had ==> Apply(c, e).had)
  {
    if Possible(c, e) {
      hide Apply, Moved, Selection;
      ApplyMoves(c, e);
      MovedKeeps(c, e);
    }
  }

  lemma {:induction false} SignalsGrow(es: seq<Event>, m: nat, n: nat)
    requires m <= n <= |es|
    ensures Exec(es[..m]).signals <= Exec(es[..n]).signals && (Exec(es[..m]).had ==> Exec(es[..n]).had)
    decreases n
  {
    if m < n {
      hide Apply, Selection, Flags, Aggregate;
      SignalsGrow(es, m, n - 1);
      ExecKeepsInv(es[..n - 1]);
      assert es[..n][..n - 1] == es[..n - 1];
      ApplyGrows(Exec(es[..n - 1]), es[n - 1]);
    }
  }

  /** No way back: once left, the new state is not entered again, and once the channel has been connected
      it never checks again. */
  lemma NoWayBack(es: seq<Event>, m: nat, n: nat)
    requires m <= n <= |es|
    ensures Exec(es[..m]).state != New ==> Exec(es[..n]).state != New
    ensures Exec(es[..m]).state == Connected ==> Exec(es[..n]).state != Checking
  {
    ExecKeepsInv(es[..m]);
    ExecKeepsInv(es[..n]);
    SignalsGrow(es, m, n);
    var before, after := Exec(es[..m]).signals, Exec(es[..n]).signals;
    if before != [] {
      assert after[|before| - 1] == Last(before);
    }
  }

  // ------------------------------------------------------------------- switching

  /** While the controller's reference is not stale, sorting selects a connection exactly if that is worth it: the
      channel moves to one that no other is better than, that can send, and that is ten milliseconds faster if one was
      selected; otherwise the selection stays. */
  lemma SortSwitchesExactly(c: Channel, stale: Conn)
    requires Selection(c) && c.chosen == c.selected
    ensures Known(c.links, c.ids)
    ensures var d := Apply(c, Refresh(stale));
      && (d.selected != c.selected <==> exists k :: WorthSwitching(c.links, c.ids, c.selected, k))
      && (d.selected != c.selected ==> d.selected.Some? && WorthSwitching(c.links, c.ids, c.selected, d.selected.value))
  {
    KnownIds(c);
    SwitchTargetExactly(c.links, c.ids, c.selected);
    UpdateSelection(Sort(c, stale));
    hide StableSort, SwitchTarget, Update, WorthSwitching, Known;
  }

  // ------------------------------------------------------------------- failover

  /** The controller's reference has outlived the selection it stands for. */
  predicate Stale(c: Channel) { c.selected.None? && c.chosen.Some? }

  ghost predicate Reselects(c: Channel, id: Id)
    requires id in c.links
  {
    var rest := c.links - {id};
    && Known(rest, Sched.Remove(c.ids, id))
    && var sorted := StableSort(rest, Sched.Remove(c.ids, id));
       && sorted != []
       && ReadyToSend(rest[sorted[0]]) && rest[sorted[0]].rtt <= c.links[id].rtt - MIN_IMPROVEMENT
  }

  lemma TargetBeyondDead(cs: Conns, memory: Conns, sorted: seq<Id>, dead: Id)
    requires Known(cs, sorted) && dead !in cs && dead in memory && memory - {dead} == cs
    ensures Known(memory, sorted)
    ensures SwitchTarget(memory, sorted, Some(dead)) ==
            if sorted != [] && ReadyToSend(cs[sorted[0]]) && cs[sorted[0]].rtt <= memory[dead].rtt - MIN_IMPROVEMENT
            then Some(sorted[0]) else None
  {
    assert forall k :: k in cs ==> k in memory && memory[k] == cs[k] by {
      assert forall k :: k in cs ==> k in (memory - {dead});
    }
  }

  lemma UpdateSelection(c: Channel)
    ensures Update(c).selected == c.selected && Update(c).chosen == c.chosen
    ensures Update(c).links == c.links && Update(c).ids == c.ids
  {
  }

  /** When the selected connection is destroyed, a new one is selected exactly if the best remaining one can
      send and beats the RTT of the destroyed one by ten milliseconds. Otherwise the controller's reference
      goes stale and nothing is selected, whatever else is writable. */
  lemma FailoverExactly(c: Channel, id: Id)
    requires Selection(c) && c.selected == Some(id)
    ensures Apply(c, Destroyed(id)).selected.Some? <==> Reselects(c, id)
    ensures Stale(Apply(c, Destroyed(id))) <==> !Reselects(c, id)
  {
    DropKeeps(c, id);
    var d := Drop(c, id);
    KnownIds(d);
    var memory := Memory(d.links, Some(id), c.links[id]);
    assert memory - {id} == d.links;
    var sorted := StableSort(d.links, d.ids);
    hide StableSort, SwitchTarget, Selection, Known, Update;
    TargetBeyondDead(d.links, memory, sorted, id);
    UpdateSelection(Sort(d, c.links[id]));
  }

  lemma NoneIsFaster(c: Channel, id: Id)
    requires Selection(c) && id in c.links
    requires forall k :: k in c.links && k != id ==> c.links[k].rtt > c.links[id].rtt - MIN_IMPROVEMENT
    ensures !Reselects(c, id)
  {
    hide StableSort, Selection;
  }

  lemma DestroyedLinks(c: Channel, id: Id)
    requires Selection(c) && c.selected == Some(id)
    ensures Apply(c, Destroyed(id)).links == c.links - {id}
  {
    assert id in c.links;
    hide Sort, Update, Selection;
    DropKeeps(c, id);
    SortKeeps(Drop(c, id), c.links[id]);
    UpdateSelection(Sort(Drop(c, id), c.links[id]));
  }

  /** No prompt failover: destroying the selected connection leaves the channel unconnected, and without a
      selection, if no other connection is ten milliseconds faster, even if all of them are writable. */
  lemma NoFailover(c: Channel, id: Id)
    requires Inv(c) && c.selected == Some(id)
    requires forall k :: k in c.links && k != id ==> c.links[k].rtt > c.links[id].rtt - MIN_IMPROVEMENT
    ensures var d := Apply(c, Destroyed(id));
            d.selected == None && d.state != Connected && d.links == c.links - {id}
  {
    hide Flags, Apply, Reselects;
    NoneIsFaster(c, id);
    FailoverExactly(c, id);
    DestroyedLinks(c, id);
    StepKeepsInv(c, Destroyed(id));
  }

  // Event j destroys the connection that is selected when it happens.
  ghost predicate LosesSelection(es: seq<Event>, j: nat) {
    j < |es| && es[j].Destroyed? && Exec(es[..j]).selected == Some(es[j].id)
  }

  lemma SortPointers(c: Channel, stale: Conn)
    requires c.chosen == c.selected
    ensures Sort(c, stale).chosen == Sort(c, stale).selected
  {
    hide StableSort, SwitchTarget;
  }

  lemma MovedPointers(c: Channel, e: Event)
    requires Selection(c) && Possible(c, e) && c.chosen == c.selected
    requires !(e.Destroyed? && c.selected == Some(e.id))
    ensures Moved(c, e).chosen == Moved(c, e).selected
  {
    hide Sort, Selection;
    match e
    case Change(id, conn, stale) => SortPointers(SetConn(c, id, conn), stale);
    case Refresh(stale) => SortPointers(c, stale);
    case _ =>
  }

  /** The two references agree after every run that destroys no connection while it is selected. */
  lemma {:induction false} PointersAgree(es: seq<Event>, n: nat)
    requires n <= |es| && forall j: nat :: j < n ==> !LosesSelection(es, j)
    ensures Exec(es[..n]).chosen == Exec(es[..n]).selected
  {
    if n > 0 {
      PointersAgree(es, n - 1);
      ExecKeepsInv(es[..n - 1]);
      assert es[..n][..n - 1] == es[..n - 1];
      assert !LosesSelection(es, n - 1);
      var c, e := Exec(es[..n - 1]), es[n - 1];
      hide Apply, Update, Moved, Flags, Aggregate, Selection;
      if Possible(c, e) {
        MovedPointers(c, e);
        ApplyMoves(c, e);
        UpdateSelection(Moved(c, e));
      } else {
        ImpossibleIsIgnored(c, e);
      }
    }
  }

  lemma ImpossibleIsIgnored(c: Channel, e: Event)
    requires !Possible(c, e)
    ensures Apply(c, e) == c
  {
  }


  // ----------------------------------------------------------------------- a run

  // The only connection is selected as soon as it can send.
  lemma FirstIsSelected(c: Channel, id: Id, conn: Conn, stale: Conn)
    requires Selection(c) && c.chosen == None && c.links.Keys == {id} && ReadyToSend(conn)
    ensures var d := Apply(c, Change(id, conn, stale)); d.selected == Some(id) && d.links == c.links[id := conn]
  {
    SetConnKeeps(c, id, conn);
    var d := SetConn(c, id, conn);
    KnownIds(d);
    var sorted := StableSort(d.links, d.ids);
    assert multiset(sorted) == multiset{id};
    assert |multiset(sorted)| == 1;
    assert sorted[0] in multiset(sorted);
    hide StableSort, Selection, Update, Known;
    UpdateSelection(Sort(d, stale));
  }

  // The selected connection stays selected while no other is ten milliseconds faster.
  lemma SelectedStays(c: Channel, id: Id, conn: Conn, stale: Conn)
    requires Selection(c) && id in c.links && c.selected.Some?
    requires var cs := c.links[id := conn];
      forall k :: k in cs && k != c.selected.value ==> cs[k].rtt > cs[c.selected.value].rtt - MIN_IMPROVEMENT
    ensures var d := Apply(c, Change(id, conn, stale)); d.selected == c.selected && d.links == c.links[id := conn]
  {
    SetConnKeeps(c, id, conn);
    var d := SetConn(c, id, conn);
    KnownIds(d);
    assert d.chosen == d.selected && d.selected.value in d.links;
    hide StableSort, Selection, Update;
    UpdateSelection(Sort(d, stale));
  }

  function Sample(writeState: nat, rtt: int): Conn { Conn(writeState, false, 1, rtt, 1, true, 0, 0, []) }

  const FIRST: Conn := Sample(WRITABLE, 50)
  const SECOND: Conn := Sample(WRITABLE, 45)
  const BLANK: Conn := Sample(WRITE_INIT, 3000)

  // Two connections appear, both become writable, the one selected first goes away.
  const FAILING_RUN: seq<Event> := [
    Register(1, BLANK), Change(1, FIRST, BLANK), Register(2, BLANK), Change(2, SECOND, BLANK), Destroyed(1)]

  lemma ExecSnoc(es: seq<Event>, e: Event)
    ensures Exec(es + [e]) == Apply(Exec(es), e)
  {
    assert (es + [e])[..|es|] == es;
  }

  // A new connection changes nothing but the list.
  lemma AfterRegister(es: seq<Event>, id: Id, conn: Conn)
    requires Possible(Exec(es), Register(id, conn))
    ensures var c, d := Exec(es), Exec(es + [Register(id, conn)]);
      d.selected == c.selected && d.chosen == c.chosen && d.links == c.links[id := conn]
  {
    ExecSnoc(es, Register(id, conn));
    hide Exec, Possible;
  }

  // The first connection to become writable is selected.
  lemma ColdStart(id: Id, blank: Conn, conn: Conn, stale: Conn)
    requires Possible(INIT, Register(id, blank)) && ReadyToSend(conn)
    ensures var c := Exec([Register(id, blank)] + [Change(id, conn, stale)]);
      c.selected == Some(id) && c.links == map[id := conn]
  {
    assert Exec([]) == INIT;
    var one := [Register(id, blank)];
    assert [] + one == one;
    hide Exec, Apply, Flags, Aggregate, Selection, Possible;
    AfterRegister([], id, blank);
    ExecSnoc(one, Change(id, conn, stale));
    ExecKeepsInv(one);
    assert Exec(one).links == map[id := blank];
    FirstIsSelected(Exec(one), id, conn, stale);
    assert map[id := blank][id := conn] == map[id := conn];
  }

  lemma ExecSelection(es: seq<Event>)
    ensures Selection(Exec(es))
  {
    ExecKeepsInv(es);
    hide Exec, Selection;
  }

  lemma TwoLinks(id: Id, first: Conn, other: Id, blank: Conn, second: Conn)
    requires id != other && second.rtt > first.rtt - MIN_IMPROVEMENT
    ensures map[id := first][other := blank][other := second] == map[id := first, other := second]
    ensures var cs := map[id := first, other := second];
      && cs - {id} == map[other := second]
      && (forall k :: k in cs && k != id ==> cs[k].rtt > cs[id].rtt - MIN_IMPROVEMENT)
  {
  }

  // A second one that is hardly faster is not.
  lemma SecondIsNot(es: seq<Event>, id: Id, first: Conn, other: Id, blank: Conn, second: Conn, stale: Conn)
    requires Exec(es).selected == Some(id) && Exec(es).links == map[id := first] && id != other
    requires Possible(Exec(es), Register(other, blank)) && second.rtt > first.rtt - MIN_IMPROVEMENT
    ensures var c := Exec(es + [Register(other, blank)] + [Change(other, second, stale)]);
      c.selected == Some(id) && c.links == map[id := first, other := second]
  {
    hide Exec, Apply, Selection, Possible;
    var es' := es + [Register(other, blank)];
    AfterRegister(es, other, blank);
    ExecSnoc(es', Change(other, second, stale));
    ExecSelection(es');
    TwoLinks(id, first, other, blank, second);
    assert other in Exec(es').links;
    SelectedStays(Exec(es'), other, second, stale);
  }

  lemma LostWhileConnected(es: seq<Event>, id: Id, other: Id)
    requires Exec(es).selected == Some(id) && SelectedWritable(Exec(es))
    requires other in Exec(es).links && other != id && Writable(Exec(es).links[other])
    requires var cs := Exec(es).links; forall k :: k in cs && k != id ==> cs[k].rtt > cs[id].rtt - MIN_IMPROVEMENT
    ensures Exec(es + [Destroyed(id)]).selected == None && Exec(es + [Destroyed(id)]).state == Disconnected
    ensures Exec(es + [Destroyed(id)]).links == Exec(es).links - {id}
  {
    var c := Exec(es);
    ExecKeepsInv(es);
    ExecSnoc(es, Destroyed(id));
    hide Exec, Apply, Trace, Selection, Update;
    assert c.been;
    NoFailover(c, id);
    StateMeaning(es, Destroyed(id));
    BeenGrows(c, Destroyed(id));
    assert other in c.links - {id} && Active((c.links - {id})[other]);
  }

  lemma RunInParts(a: Event, b: Event, c: Event, d: Event, e: Event)
    ensures [a, b, c, d, e] == ([a] + [b]) + [c] + [d] + [e]
  {
  }

  // One connection becomes writable, then another that is less than ten milliseconds faster; the first goes away.
  lemma PassedOver(id: Id, other: Id, blank: Conn, first: Conn, second: Conn, stale: Conn)
    requires id != other && blank.writeState == WRITE_INIT && !blank.receiving
    requires Writable(first) && Writable(second) && second.rtt > first.rtt - MIN_IMPROVEMENT
    ensures var c := Exec([Register(id, blank), Change(id, first, stale), Register(other, blank),
                           Change(other, second, stale), Destroyed(id)]);
      c.selected == None && c.state == Disconnected && c.links == map[other := second]
  {
    hide Exec, Apply, Selection, Update;
    ColdStart(id, blank, first, stale);
    var start := [Register(id, blank)] + [Change(id, first, stale)];
    SecondIsNot(start, id, first, other, blank, second, stale);
    var both := start + [Register(other, blank)] + [Change(other, second, stale)];
    TwoLinks(id, first, other, blank, second);
    LostWhileConnected(both, id, other);
    RunInParts(Register(id, blank), Change(id, first, stale), Register(other, blank), Change(other, second, stale),
        Destroyed(id));
  }

  /** A writable connection passed over: after this run nothing is selected and the channel is disconnected,
      while connection 2 is registered, writable and five milliseconds faster than the one that is gone. */
  lemma WritableIsPassedOver()
    ensures var c := Exec(FAILING_RUN);
      && c.selected == None && c.state == Disconnected
      && c.links == map[2 := SECOND] && Writable(SECOND) && SECOND.rtt < FIRST.rtt
  {
    hide Exec;
    PassedOver(1, 2, BLANK, FIRST, SECOND, BLANK);
  }

  lemma BeenGrows(c: Channel, e: Event)
    requires Inv(c) && c.been
    ensures Connected in Apply(c, e).signals
  {
    ApplyGrows(c, e);
    hide Apply;
  }
}
