/** Ordering and switching of ICE connections: _compare_connections and
    sort_and_switch_connection of src/ice/ice_controller.cpp. */
module IceSelection {
  import opened Wrappers

  type Id = nat  // the address of an IceConnection

  const WRITABLE := 0
  const WRITE_UNRELIABLE := 1
  const WRITE_INIT := 2
  const WRITE_TIMEOUT := 3

  const MIN_IMPROVEMENT := 10

  /** The fields of IceConnection that the controller looks at; `pings` holds the sending times
      of the pings not yet answered. */
  datatype Conn = Conn(
    writeState: nat, receiving: bool, priority: nat, rtt: int, rttSamples: nat,
    credentialed: bool, lastPingSent: int, numPings: nat, pings: seq<int>)

  type Conns = map<Id, Conn>

  predicate Writable(c: Conn) { c.writeState == WRITABLE }

  // _compare_connections: 1 if a is better, -1 if b is better, 0 if neither.
  function Compare(a: Conn, b: Conn): int {
    if Writable(a) && !Writable(b) then 1
    else if !Writable(a) && Writable(b) then -1
    else if a.writeState < b.writeState then 1
    else if a.writeState > b.writeState then -1
    else if a.receiving && !b.receiving then 1
    else if !a.receiving && b.receiving then -1
    else if a.priority > b.priority then 1
    else if a.priority < b.priority then -1
    else 0
  }

  // The comparison given to the sort: RTT decides what Compare leaves open.
  predicate Better(a: Conn, b: Conn) {
    var cmp := Compare(a, b);
    if cmp != 0 then cmp > 0 else a.rtt < b.rtt
  }

  // The lexicographic order the comparator is meant to be: smaller key, better connection.
  function Key(c: Conn): seq<int> { [c.writeState, if c.receiving then 0 else 1, 0 - c.priority, c.rtt] }

  predicate LexLess(s: seq<int>, t: seq<int>)
    requires |s| == |t|
  {
    s != [] && (s[0] < t[0] || (s[0] == t[0] && LexLess(s[1..], t[1..])))
  }

  lemma LexLess4(a0: int, a1: int, a2: int, a3: int, b0: int, b1: int, b2: int, b3: int)
    ensures LexLess([a0, a1, a2, a3], [b0, b1, b2, b3]) <==>
            a0 < b0 || (a0 == b0 && (a1 < b1 || (a1 == b1 && (a2 < b2 || (a2 == b2 && a3 < b3)))))
  {
    assert LexLess([a3], [b3]) <==> a3 < b3;
    assert [a2, a3][1..] == [a3] && [b2, b3][1..] == [b3];
    assert LexLess([a2, a3], [b2, b3]) <==> a2 < b2 || (a2 == b2 && LexLess([a3], [b3]));
    assert [a1, a2, a3][1..] == [a2, a3] && [b1, b2, b3][1..] == [b2, b3];
    assert [a0, a1, a2, a3][1..] == [a1, a2, a3] && [b0, b1, b2, b3][1..] == [b1, b2, b3];
  }

  /** The five-way comparison with the RTT fallback is the lexicographic order on
      (write state, receiving, priority, RTT). */
  lemma BetterIsLexicographic(a: Conn, b: Conn)
    ensures Better(a, b) <==> LexLess(Key(a), Key(b))
  {
    LexLess4(a.writeState, if a.receiving then 0 else 1, 0 - a.priority, a.rtt,
             b.writeState, if b.receiving then 0 else 1, 0 - b.priority, b.rtt);
  }

  /** What std::stable_sort demands of it: a strict weak order. */
  lemma BetterIsStrictWeakOrder(a: Conn, b: Conn, c: Conn)
    ensures !Better(a, a)
    ensures Better(a, b) ==> !Better(b, a)
    ensures Better(a, b) && Better(b, c) ==> Better(a, c)
    ensures !Better(a, b) && !Better(b, a) && !Better(b, c) && !Better(c, b) ==> !Better(a, c) && !Better(c, a)
    ensures !Better(b, a) && !Better(c, b) ==> !Better(c, a)
  {
  }

  // ------------------------------------------------------------- stable sort

  predicate Known(cs: Conns, ids: seq<Id>) { forall i :: 0 <= i < |ids| ==> ids[i] in cs }

  function Insert(cs: Conns, x: Id, ids: seq<Id>): (r: seq<Id>)
    requires x in cs && Known(cs, ids)
    ensures Known(cs, r) && multiset(r) == multiset{x} + multiset(ids)
  {
    if ids == [] then [x]
    else if Better(cs[ids[0]], cs[x]) then
      assert ids == [ids[0]] + ids[1..];
      [ids[0]] + Insert(cs, x, ids[1..])
    else [x] + ids
  }

  function StableSort(cs: Conns, ids: seq<Id>): (r: seq<Id>)
    requires Known(cs, ids)
    ensures Known(cs, r) && multiset(r) == multiset(ids) && |r| == |ids|
  {
    if ids == [] then []
    else
      assert ids == [ids[0]] + ids[1..];
      var r := Insert(cs, ids[0], StableSort(cs, ids[1..]));
      assert |multiset(r)| == |multiset(ids)|;
      r
  }

  predicate Sorted(cs: Conns, ids: seq<Id>)
    requires Known(cs, ids)
  {
    forall i, j :: 0 <= i < j < |ids| ==> !Better(cs[ids[j]], cs[ids[i]])
  }

  lemma {:induction false} InsertSorts(cs: Conns, x: Id, ids: seq<Id>)
    requires x in cs && Known(cs, ids) && Sorted(cs, ids)
    ensures Sorted(cs, Insert(cs, x, ids))
  {
    if ids != [] {
      var r := Insert(cs, x, ids);
      if Better(cs[ids[0]], cs[x]) {
        InsertSorts(cs, x, ids[1..]);
        var t := Insert(cs, x, ids[1..]);
        hide Better, Insert;
        BetterIsStrictWeakOrder(cs[ids[0]], cs[x], cs[x]);
        forall j | 0 <= j < |t|
          ensures !Better(cs[t[j]], cs[ids[0]])
        {
          assert t[j] in multiset(t);
          if t[j] != x {
            assert t[j] in multiset(ids[1..]);
            var k :| 0 <= k < |ids[1..]| && ids[1..][k] == t[j];
            assert ids[k + 1] == t[j];
          }
        }
        assert r == [ids[0]] + t;
      } else {
        forall j | 0 <= j < |ids|
          ensures !Better(cs[ids[j]], cs[x])
        {
          BetterIsStrictWeakOrder(cs[x], cs[ids[0]], cs[ids[j]]);
        }
      }
    }
  }

  lemma {:induction false} StableSortSorts(cs: Conns, ids: seq<Id>)
    requires Known(cs, ids)
    ensures Sorted(cs, StableSort(cs, ids))
  {
    if ids != [] {
      StableSortSorts(cs, ids[1..]);
      InsertSorts(cs, ids[0], StableSort(cs, ids[1..]));
    }
  }

  predicate Before(ids: seq<Id>, a: Id, b: Id) {
    exists i, j :: 0 <= i < j < |ids| && ids[i] == a && ids[j] == b
  }

  predicate Tied(a: Conn, b: Conn) { !Better(a, b) && !Better(b, a) }

  lemma BeforeCons(x: Id, ids: seq<Id>, a: Id, b: Id)
    ensures Before(ids, a, b) ==> Before([x] + ids, a, b)
    ensures b in ids ==> Before([x] + ids, x, b)
    ensures Before([x] + ids, a, b) ==> (a == x && b in ids) || Before(ids, a, b)
  {
    var r := [x] + ids;
    if Before(ids, a, b) {
      var i, j :| 0 <= i < j < |ids| && ids[i] == a && ids[j] == b;
      assert r[i + 1] == a && r[j + 1] == b;
    }
    if b in ids {
      var j :| 0 <= j < |ids| && ids[j] == b;
      assert r[0] == x && r[j + 1] == b;
    }
    if Before(r, a, b) {
      var i, j :| 0 <= i < j < |r| && r[i] == a && r[j] == b;
      assert ids[j - 1] == b;
      if i > 0 {
        assert ids[i - 1] == a;
      }
    }
  }

  // Inserting keeps what was before what, and puts x before everything it ties with.
  lemma {:induction false} InsertIsStable(cs: Conns, x: Id, ids: seq<Id>, a: Id, b: Id)
    requires x in cs && Known(cs, ids)
    ensures Before(ids, a, b) ==> Before(Insert(cs, x, ids), a, b)
    ensures b in ids && b in cs && Tied(cs[x], cs[b]) && Sorted(cs, ids) ==> Before(Insert(cs, x, ids), x, b)
  {
    if ids != [] {
      var y, rest := ids[0], ids[1..];
      assert ids == [y] + rest;
      if Better(cs[y], cs[x]) {
        InsertIsStable(cs, x, rest, a, b);
        var r := Insert(cs, x, rest);
        BeforeCons(y, rest, a, b);
        BeforeCons(y, r, a, b);
        BeforeCons(y, r, x, b);
        if Before(ids, a, b) && !Before(rest, a, b) {
          assert b in multiset(r);
        }
      } else {
        BeforeCons(x, ids, a, b);
      }
    }
  }

  /** Stability: connections that tie keep their relative order. */
  lemma {:induction false} StableSortIsStable(cs: Conns, ids: seq<Id>, a: Id, b: Id)
    requires Known(cs, ids) && Before(ids, a, b) && a in cs && b in cs && Tied(cs[a], cs[b])
    ensures Before(StableSort(cs, ids), a, b)
  {
    var x, rest := ids[0], ids[1..];
    assert ids == [x] + rest;
    BeforeCons(x, rest, a, b);
    StableSortSorts(cs, rest);
    var r := StableSort(cs, rest);
    InsertIsStable(cs, x, r, a, b);
    if Before(rest, a, b) {
      StableSortIsStable(cs, rest, a, b);
    } else {
      assert b in multiset(r);
    }
  }

  // --------------------------------------------------------------- switching

  predicate ReadyToSend(c: Conn) { Writable(c) || c.writeState == WRITE_UNRELIABLE }

  /** The connection sort_and_switch_connection returns, given the sorted list. */
  function SwitchTarget(cs: Conns, sorted: seq<Id>, selected: Option<Id>): (t: Option<Id>)
    requires Known(cs, sorted) && (selected.Some? ==> selected.value in cs)
    ensures t.Some? ==> t.value in sorted && t != selected && ReadyToSend(cs[t.value])
    ensures t.Some? && selected.Some? ==> cs[t.value].rtt <= cs[selected.value].rtt - MIN_IMPROVEMENT
  {
    if sorted == [] then None
    else
      var top := sorted[0];
      if !ReadyToSend(cs[top]) || selected == Some(top) then None
      else if selected == None then Some(top)
      else if cs[top].rtt <= cs[selected.value].rtt - MIN_IMPROVEMENT then Some(top)
      else None
  }

  /** Whatever is returned is a best connection: no connection is better. */
  lemma SwitchTargetIsBest(cs: Conns, ids: seq<Id>, selected: Option<Id>)
    requires Known(cs, ids) && (selected.Some? ==> selected.value in cs)
    ensures var t := SwitchTarget(cs, StableSort(cs, ids), selected);
      t.Some? ==> t.value in ids && forall i :: 0 <= i < |ids| ==> !Better(cs[ids[i]], cs[t.value])
  {
    var sorted := StableSort(cs, ids);
    StableSortSorts(cs, ids);
    var t := SwitchTarget(cs, sorted, selected);
    if t.Some? {
      assert t.value in multiset(ids);
      forall i | 0 <= i < |ids|
        ensures !Better(cs[ids[i]], cs[t.value])
      {
        assert ids[i] in multiset(sorted);
        var k :| 0 <= k < |sorted| && sorted[k] == ids[i];
        BetterIsStrictWeakOrder(cs[t.value], cs[t.value], cs[t.value]);
      }
    }
  }

  // No listed connection is better than c.
  predicate Best(cs: Conns, ids: seq<Id>, c: Id)
    requires Known(cs, ids)
  {
    c in ids && c in cs && forall i :: 0 <= i < |ids| ==> !Better(cs[ids[i]], cs[c])
  }

  // c is a best connection, it can send, it is not the selected one and, if there is one, ten milliseconds faster.
  predicate WorthSwitching(cs: Conns, ids: seq<Id>, selected: Option<Id>, c: Id)
    requires Known(cs, ids) && (selected.Some? ==> selected.value in cs)
  {
    && Best(cs, ids, c) && ReadyToSend(cs[c]) && selected != Some(c)
    && (selected.Some? ==> cs[c].rtt <= cs[selected.value].rtt - MIN_IMPROVEMENT)
  }

  lemma TiedIsAlike(a: Conn, b: Conn)
    requires Tied(a, b)
    ensures a.writeState == b.writeState && a.rtt == b.rtt
  {
  }

  lemma TopIsBest(cs: Conns, ids: seq<Id>)
    requires Known(cs, ids) && ids != []
    ensures Best(cs, ids, StableSort(cs, ids)[0])
  {
    var sorted := StableSort(cs, ids);
    StableSortSorts(cs, ids);
    hide StableSort;
    assert sorted[0] in multiset(sorted);
    forall i | 0 <= i < |ids|
      ensures !Better(cs[ids[i]], cs[sorted[0]])
    {
      assert ids[i] in multiset(sorted);
      var k :| 0 <= k < |sorted| && sorted[k] == ids[i];
      BetterIsStrictWeakOrder(cs[sorted[0]], cs[sorted[0]], cs[sorted[0]]);
    }
  }

  lemma BestAreTied(cs: Conns, ids: seq<Id>, a: Id, b: Id)
    requires Known(cs, ids) && Best(cs, ids, a) && Best(cs, ids, b)
    ensures Tied(cs[a], cs[b])
  {
    var i :| 0 <= i < |ids| && ids[i] == a;
    var j :| 0 <= j < |ids| && ids[j] == b;
    hide Better;
    assert !Better(cs[ids[i]], cs[b]) && !Better(cs[ids[j]], cs[a]);
  }

  // If any best connection is worth switching to, all are.
  lemma AnyBestWillDo(cs: Conns, ids: seq<Id>, selected: Option<Id>, top: Id, c: Id)
    requires Known(cs, ids) && (selected.Some? ==> selected.value in cs)
    requires Best(cs, ids, top) && WorthSwitching(cs, ids, selected, c)
    ensures WorthSwitching(cs, ids, selected, top)
  {
    BestAreTied(cs, ids, top, c);
    TiedIsAlike(cs[top], cs[c]);
    hide Better;
  }

  lemma TargetIsTop(cs: Conns, ids: seq<Id>, sorted: seq<Id>, selected: Option<Id>)
    requires Known(cs, ids) && Known(cs, sorted) && sorted != [] && (selected.Some? ==> selected.value in cs)
    requires Best(cs, ids, sorted[0])
    ensures SwitchTarget(cs, sorted, selected) ==
            if WorthSwitching(cs, ids, selected, sorted[0]) then Some(sorted[0]) else None
  {
    hide Best;
  }

  /** A switch is made exactly if it is worth making: there is a target exactly if some best connection can send, is not
      selected, and beats the selected one, if any, by ten milliseconds. */
  lemma SwitchTargetExactly(cs: Conns, ids: seq<Id>, selected: Option<Id>)
    requires Known(cs, ids) && (selected.Some? ==> selected.value in cs)
    ensures SwitchTarget(cs, StableSort(cs, ids), selected).Some? <==> exists c :: WorthSwitching(cs, ids, selected, c)
    ensures var t := SwitchTarget(cs, StableSort(cs, ids), selected);
      t.Some? ==> WorthSwitching(cs, ids, selected, t.value)
  {
    var sorted := StableSort(cs, ids);
    if ids != [] {
      hide StableSort, SwitchTarget, Best;
      TopIsBest(cs, ids);
      TargetIsTop(cs, ids, sorted, selected);
      if c :| WorthSwitching(cs, ids, selected, c) {
        AnyBestWillDo(cs, ids, selected, sorted[0], c);
      }
    }
  }

  // ------------------------------------------------------------- hysteresis

  /** One round of sorting: the write states, the registered connections and everything else may
      have changed since the previous one. */
  datatype Round = Round(conns: Conns, ids: seq<Id>)

  predicate RoundOk(r: Round, rtt: map<Id, int>) {
    && Known(r.conns, r.ids)
    && forall i :: i in r.conns ==> i in rtt && r.conns[i].rtt == rtt[i]
  }

  // sel[k] is the selection before round k. The connection selected stays alive.
  predicate SelectionRun(rounds: seq<Round>, rtt: map<Id, int>, sel: seq<Option<Id>>) {
    && |sel| == |rounds| + 1
    && (forall k :: 0 <= k < |sel| && sel[k].Some? ==> sel[k].value in rtt)
    && forall k :: 0 <= k < |rounds| ==> RoundAt(rounds, rtt, sel, k)
  }

  predicate RoundAt(rounds: seq<Round>, rtt: map<Id, int>, sel: seq<Option<Id>>, k: nat)
    requires k < |rounds| && |sel| == |rounds| + 1
  {
    RoundOk(rounds[k], rtt) && RoundSwitch(rounds[k], sel[k], sel[k + 1])
  }

  predicate RoundSwitch(r: Round, before: Option<Id>, after: Option<Id>) {
    && Known(r.conns, r.ids) && (before.Some? ==> before.value in r.conns)
    && var t := SwitchTarget(r.conns, StableSort(r.conns, r.ids), before);
       after == if t.Some? then t else before
  }

  function Switches(sel: seq<Option<Id>>, i: nat, j: nat): nat
    requires i <= j < |sel|
    decreases j
  {
    if i == j then 0 else Switches(sel, i, j - 1) + (if sel[j - 1] != sel[j] then 1 else 0)
  }

  lemma RoundLowersRtt(r: Round, rtt: map<Id, int>, before: Option<Id>, after: Option<Id>)
    requires RoundOk(r, rtt) && RoundSwitch(r, before, after) && before.Some?
    ensures before.value in rtt && after.Some? && after.value in rtt
    ensures after != before ==> rtt[after.value] <= rtt[before.value] - MIN_IMPROVEMENT
  {
    hide StableSort;
  }

  /** While RTTs are fixed, every switch costs ten milliseconds of RTT, however the write states
      and the set of connections move. */
  lemma {:induction false} SwitchesLowerRtt(rounds: seq<Round>, rtt: map<Id, int>, sel: seq<Option<Id>>, i: nat, j: nat)
    requires SelectionRun(rounds, rtt, sel) && i <= j < |sel| && sel[i].Some?
    ensures sel[j].Some?
    ensures rtt[sel[j].value] <= rtt[sel[i].value] - MIN_IMPROVEMENT * Switches(sel, i, j)
    decreases j
  {
    if i < j {
      SwitchesLowerRtt(rounds, rtt, sel, i, j - 1);
      assert RoundAt(rounds, rtt, sel, j - 1);
      hide RoundOk, RoundSwitch;
      RoundLowersRtt(rounds[j - 1], rtt, sel[j - 1], sel[j]);
    }
  }

  lemma {:induction false} NoSwitchSameSelection(sel: seq<Option<Id>>, i: nat, j: nat)
    requires i <= j < |sel| && Switches(sel, i, j) == 0
    ensures sel[i] == sel[j]
    decreases j
  {
    if i < j {
      NoSwitchSameSelection(sel, i, j - 1);
    }
  }

  lemma {:induction false} SwitchesSplit(sel: seq<Option<Id>>, i: nat, j: nat, k: nat)
    requires i <= j <= k < |sel|
    ensures Switches(sel, i, k) == Switches(sel, i, j) + Switches(sel, j, k)
    decreases k
  {
    if j < k {
      SwitchesSplit(sel, i, j, k - 1);
    }
  }

  /** No ping-pong: a connection that was left is never selected again, and from a connection with
      RTT r there are at most r / 10 switches (RTTs being non-negative). */
  lemma NoPingPong(rounds: seq<Round>, rtt: map<Id, int>, sel: seq<Option<Id>>, i: nat, j: nat, k: nat)
    requires SelectionRun(rounds, rtt, sel) && i <= j <= k < |sel| && sel[i].Some?
    ensures sel[j] != sel[i] ==> sel[k] != sel[i]
    ensures (forall c :: c in rtt ==> rtt[c] >= 0) ==> Switches(sel, i, k) <= rtt[sel[i].value] / MIN_IMPROVEMENT
  {
    SwitchesLowerRtt(rounds, rtt, sel, i, k);
    if sel[j] != sel[i] && sel[k] == sel[i] {
      SwitchesSplit(sel, i, j, k);
      NoSwitchSameSelection(sel, i, j);
    }
  }
}
