/** The single-producer single-consumer queue of src/base/lock_free_queue.h as a
    machine whose steps are single reads or writes of shared memory, executed in
    any interleaving of one producer and one consumer (sequential consistency).

    The heap is explicit: `delete` removes an address from it, the allocator may
    hand the same address out again, and touching an address that is not in the
    heap is a `Fault`. */
module SpscQueue {
  import opened Wrappers

  type Addr = nat

  datatype Node<T> = Node(value: T, next: Option<Addr>)

  // Program counter and registers of produce().
  datatype Producer =
    | Idle
    | Allocated(n: Addr)             // n = new Node(t)
    | TailRead(n: Addr, p: Addr)     // p = last
    | Linked                         // p->next = n
    | TailReread(p: Addr)            // p = last
    | NextRead(q: Addr)              // q = p->next
    | Published                      // last = q
    | LoopHead                       // ++_size, or one clean-up iteration, done
    | DividerRead(d: Addr)           // d = divider
    | Reclaiming                     // d != first
    | Saved(temp: Addr)              // temp = first
    | FirstRead(temp: Addr, f: Addr) // f = first
    | SecondRead(temp: Addr, q: Addr)// q = f->next
    | Unlinked(temp: Addr)           // first = q; `delete temp` is next

  // Program counter and registers of consume().
  datatype Consumer<T> =
    | Waiting
    | Guard(d: Addr)                 // d = divider
    | NonEmpty                       // d != last
    | ForValue(d: Addr)              // d = divider
    | ValueNode(q: Addr)             // q = d->next
    | Taken(v: T)                    // *result = q->value
    | ForMove(v: T, d: Addr)         // d = divider
    | MoveTo(v: T, q: Addr)          // q = d->next
    | Moved(v: T)                    // divider = q; `--_size` is next

  /** `produced` and `returned` record the calls; `chain`, `fi`, `di` and `li`
      are history that no step's guard or result depends on: the addresses linked
      so far and where the three pointers stand in them. */
  datatype State<T> = State(
    heap: map<Addr, Node<T>>,
    first: Addr, divider: Addr, last: Addr, size: int,
    prod: Producer, cons: Consumer<T>,
    produced: seq<T>, returned: seq<T>,
    chain: seq<Addr>, fi: nat, di: nat, li: nat)

  datatype Outcome<T> = Running(s: State<T>) | Fault

  datatype Event<T> =
    | Produce(t: T, a: Addr)   // the producer calls produce(t); the allocator returns a
    | ProducerStep
    | Consume                  // the consumer calls consume()
    | ConsumerStep

  function Init<T>(a: Addr, dummy: T): State<T> {
    State(map[a := Node(dummy, None)], a, a, a, 0, Idle, Waiting, [], [], [a], 0, 0, 0)
  }

  predicate Enabled<T>(s: State<T>, e: Event<T>) {
    match e
    case Produce(_, a) => s.prod.Idle? && a !in s.heap
    case ProducerStep => !s.prod.Idle?
    case Consume => s.cons.Waiting?
    case ConsumerStep => !s.cons.Waiting?
  }

  function ProducerNext<T>(s: State<T>): Outcome<T>
    requires !s.prod.Idle?
  {
    match s.prod
    case Allocated(n) => Running(s.(prod := TailRead(n, s.last)))
    case TailRead(n, p) =>
      if p !in s.heap then Fault
      else Running(s.(heap := s.heap[p := s.heap[p].(next := Some(n))], prod := Linked, chain := s.chain + [n]))
    case Linked => Running(s.(prod := TailReread(s.last)))
    case TailReread(p) =>
      if p !in s.heap || s.heap[p].next.None? then Fault
      else Running(s.(prod := NextRead(s.heap[p].next.value)))
    case NextRead(q) => Running(s.(last := q, prod := Published, li := s.li + 1))
    case Published => Running(s.(size := s.size + 1, prod := LoopHead))
    case LoopHead => Running(s.(prod := DividerRead(s.divider)))
    case DividerRead(d) => Running(s.(prod := if d != s.first then Reclaiming else Idle))
    case Reclaiming => Running(s.(prod := Saved(s.first)))
    case Saved(temp) => Running(s.(prod := FirstRead(temp, s.first)))
    case FirstRead(temp, f) =>
      if f !in s.heap || s.heap[f].next.None? then Fault
      else Running(s.(prod := SecondRead(temp, s.heap[f].next.value)))
    case SecondRead(temp, q) => Running(s.(first := q, prod := Unlinked(temp), fi := s.fi + 1))
    case Unlinked(temp) =>
      if temp !in s.heap then Fault
      else Running(s.(heap := s.heap - {temp}, prod := LoopHead))
  }

  function ConsumerNext<T>(s: State<T>): Outcome<T>
    requires !s.cons.Waiting?
  {
    match s.cons
    case Guard(d) => Running(s.(cons := if d != s.last then NonEmpty else Waiting))
    case NonEmpty => Running(s.(cons := ForValue(s.divider)))
    case ForValue(d) =>
      if d !in s.heap || s.heap[d].next.None? then Fault
      else Running(s.(cons := ValueNode(s.heap[d].next.value)))
    case ValueNode(q) =>
      if q !in s.heap then Fault else Running(s.(cons := Taken(s.heap[q].value)))
    case Taken(v) => Running(s.(cons := ForMove(v, s.divider)))
    case ForMove(v, d) =>
      if d !in s.heap || s.heap[d].next.None? then Fault
      else Running(s.(cons := MoveTo(v, s.heap[d].next.value)))
    case MoveTo(v, q) => Running(s.(divider := q, cons := Moved(v), di := s.di + 1))
    case Moved(v) => Running(s.(size := s.size - 1, cons := Waiting, returned := s.returned + [v]))
  }

  function Next<T>(s: State<T>, e: Event<T>): Outcome<T>
    requires Enabled(s, e)
  {
    match e
    case Produce(t, a) =>
      Running(s.(heap := s.heap[a := Node(t, None)], prod := Allocated(a), produced := s.produced + [t]))
    case ProducerStep => ProducerNext(s)
    case Consume => Running(s.(cons := Guard(s.divider)))
    case ConsumerStep => ConsumerNext(s)
  }

  // Any schedule: an event that is not enabled does not happen.
  function Exec<T>(s: State<T>, es: seq<Event<T>>): Outcome<T>
    decreases |es|
  {
    if es == [] then Running(s)
    else if !Enabled(s, es[0]) then Exec(s, es[1..])
    else match Next(s, es[0])
      case Fault => Fault
      case Running(s') => Exec(s', es[1..])
  }

  // ---------------------------------------------------------------- invariant

  predicate Pending<T>(s: State<T>) { s.prod.Allocated? || s.prod.TailRead? }

  // Between linking a node and publishing it, the chain is one longer than `last` shows.
  predicate Unpublished<T>(s: State<T>) { s.prod.Linked? || s.prod.TailReread? || s.prod.NextRead? }

  // The oldest address not yet freed.
  function Lo<T>(s: State<T>): int { if s.prod.Unlinked? then s.fi - 1 else s.fi }

  // The i-th node ever linked (0 is the dummy): live, holding the i-th value, pointing at the next.
  ghost predicate NodeOk<T>(heap: map<Addr, Node<T>>, chain: seq<Addr>, produced: seq<T>, i: int)
    requires 0 <= i < |chain| <= |produced| + 1
  {
    && chain[i] in heap
    && heap[chain[i]].next == (if i + 1 < |chain| then Some(chain[i + 1]) else None)
    && (i > 0 ==> heap[chain[i]].value == produced[i - 1])
  }

  ghost predicate ChainOk<T>(heap: map<Addr, Node<T>>, chain: seq<Addr>, produced: seq<T>, lo: int)
    requires 0 <= lo
    requires |chain| <= |produced| + 1
  {
    && (forall i :: lo <= i < |chain| ==> NodeOk(heap, chain, produced, i))
    && (forall i, j :: lo <= i < j < |chain| ==> chain[i] != chain[j])
  }

  // No leak: what is live is the chain from `lo` on and the node not yet linked.
  ghost predicate NoLeak<T>(heap: map<Addr, Node<T>>, chain: seq<Addr>, lo: int, extra: Option<Addr>)
    requires 0 <= lo
  {
    forall a :: a in heap ==> (exists i :: lo <= i < |chain| && chain[i] == a) || extra == Some(a)
  }

  function NewNode<T>(s: State<T>): Option<Addr> {
    if Pending(s) then Some(s.prod.n) else None
  }

  ghost predicate PointersOk<T>(s: State<T>) {
    && 0 <= Lo(s) <= s.fi <= s.di <= s.li
    && |s.chain| == s.li + (if Unpublished(s) then 2 else 1)
    && |s.produced| == |s.chain| - 1 + (if Pending(s) then 1 else 0)
    && s.first == s.chain[s.fi] && s.divider == s.chain[s.di] && s.last == s.chain[s.li]
  }

  ghost predicate NewNodeOk<T>(heap: map<Addr, Node<T>>, chain: seq<Addr>, produced: seq<T>, fi: nat, n: Addr) {
    && n in heap && |produced| > 0
    && heap[n] == Node(produced[|produced| - 1], None)
    && forall i :: fi <= i < |chain| ==> chain[i] != n
  }

  // What the producer's registers mean; `di` is only ever a lower bound that the consumer raises.
  ghost predicate ProducerOk<T>(prod: Producer, heap: map<Addr, Node<T>>, chain: seq<Addr>, produced: seq<T>,
                                fi: nat, di: nat, li: nat)
    requires fi <= di <= li < |chain|
    requires (prod.Linked? || prod.TailReread? || prod.NextRead?) ==> li + 1 < |chain|
    requires prod.Unlinked? ==> fi > 0
  {
    match prod
    case Idle => true
    case Allocated(n) => NewNodeOk(heap, chain, produced, fi, n)
    case TailRead(n, p) => NewNodeOk(heap, chain, produced, fi, n) && p == chain[li]
    case Linked => true
    case TailReread(p) => p == chain[li]
    case NextRead(q) => q == chain[li + 1]
    case Published => true
    case LoopHead => true
    case DividerRead(d) => d in chain[fi..di + 1]
    case Reclaiming => fi < di
    case Saved(temp) => fi < di && temp == chain[fi]
    case FirstRead(temp, f) => fi < di && temp == chain[fi] && f == chain[fi]
    case SecondRead(temp, q) => fi < di && temp == chain[fi] && q == chain[fi + 1]
    case Unlinked(temp) => temp == chain[fi - 1]
  }

  // What the consumer's registers mean; `li` is only ever an upper bound that the producer raises.
  ghost predicate ConsumerOk<T>(cons: Consumer<T>, chain: seq<Addr>, produced: seq<T>, returned: seq<T>,
                                di: nat, li: nat)
    requires di <= li < |chain| <= |produced| + 1
  {
    && (if cons.Moved? then di > 0 && returned == produced[..di - 1] else returned == produced[..di])
    && match cons
       case Waiting => true
       case Guard(d) => d == chain[di]
       case NonEmpty => di < li
       case ForValue(d) => di < li && d == chain[di]
       case ValueNode(q) => di < li && q == chain[di + 1]
       case Taken(v) => di < li && v == produced[di]
       case ForMove(v, d) => di < li && v == produced[di] && d == chain[di]
       case MoveTo(v, q) => di < li && v == produced[di] && q == chain[di + 1]
       case Moved(v) => v == produced[di - 1]
  }

  predicate Cleaning<T>(s: State<T>) {
    s.prod.LoopHead? || s.prod.DividerRead? || s.prod.Reclaiming? || s.prod.Saved? ||
    s.prod.FirstRead? || s.prod.SecondRead? || s.prod.Unlinked?
  }

  ghost predicate Inv<T>(s: State<T>) {
    && PointersOk(s)
    && ChainOk(s.heap, s.chain, s.produced, Lo(s)) && NoLeak(s.heap, s.chain, Lo(s), NewNode(s))
    && ProducerOk(s.prod, s.heap, s.chain, s.produced, s.fi, s.di, s.li)
    && ConsumerOk(s.cons, s.chain, s.produced, s.returned, s.di, s.li)
    && s.size == s.li - s.di - (if s.prod.Published? then 1 else 0) + (if s.cons.Moved? then 1 else 0)
  }

  // Allocation: the address is not live, so it differs from every address of the chain.
  lemma AllocateInHeap<T>(heap: map<Addr, Node<T>>, chain: seq<Addr>, produced: seq<T>, lo: nat, t: T, a: Addr)
    requires |chain| == |produced| + 1 && a !in heap
    requires ChainOk(heap, chain, produced, lo) && NoLeak(heap, chain, lo, None)
    ensures ChainOk(heap[a := Node(t, None)], chain, produced + [t], lo)
    ensures NoLeak(heap[a := Node(t, None)], chain, lo, Some(a))
    ensures forall i :: lo <= i < |chain| ==> chain[i] != a
  {
    var heap' := heap[a := Node(t, None)];
    forall i | lo <= i < |chain|
      ensures NodeOk(heap', chain, produced + [t], i) && chain[i] != a
    {
      assert NodeOk(heap, chain, produced, i);
    }
  }

  // p->next = n, where p is the end of the chain.
  lemma LinkInHeap<T>(heap: map<Addr, Node<T>>, chain: seq<Addr>, produced: seq<T>, lo: nat, p: Addr, n: Addr)
    requires lo < |chain| == |produced| && p == chain[|chain| - 1]
    requires ChainOk(heap, chain, produced, lo) && NoLeak(heap, chain, lo, Some(n))
    requires n in heap && heap[n] == Node(produced[|produced| - 1], None)
    requires forall i :: lo <= i < |chain| ==> chain[i] != n
    ensures p in heap
    ensures ChainOk(heap[p := heap[p].(next := Some(n))], chain + [n], produced, lo)
    ensures NoLeak(heap[p := heap[p].(next := Some(n))], chain + [n], lo, None)
  {
    assert NodeOk(heap, chain, produced, |chain| - 1);
    var heap', chain' := heap[p := heap[p].(next := Some(n))], chain + [n];
    forall i | lo <= i < |chain'|
      ensures NodeOk(heap', chain', produced, i)
    {
      if i < |chain| {
        assert NodeOk(heap, chain, produced, i);
      }
    }
    forall a | a in heap'
      ensures exists i :: lo <= i < |chain'| && chain'[i] == a
    {
      if a == n {
        assert chain'[|chain|] == a;
      } else {
        var i :| lo <= i < |chain| && chain[i] == a;
        assert chain'[i] == a;
      }
    }
  }

  // delete chain[lo]
  lemma DeleteInHeap<T>(heap: map<Addr, Node<T>>, chain: seq<Addr>, produced: seq<T>, lo: nat)
    requires lo < |chain| <= |produced| + 1
    requires ChainOk(heap, chain, produced, lo) && NoLeak(heap, chain, lo, None)
    ensures chain[lo] in heap
    ensures ChainOk(heap - {chain[lo]}, chain, produced, lo + 1)
    ensures NoLeak(heap - {chain[lo]}, chain, lo + 1, None)
  {
    assert NodeOk(heap, chain, produced, lo);
    var heap' := heap - {chain[lo]};
    forall i | lo + 1 <= i < |chain|
      ensures NodeOk(heap', chain, produced, i)
    {
      assert NodeOk(heap, chain, produced, i);
    }
    forall a | a in heap'
      ensures exists i :: lo + 1 <= i < |chain| && chain[i] == a
    {
      var i :| lo <= i < |chain| && chain[i] == a;
    }
  }

  lemma CallKeepsInv<T>(s: State<T>, t: T, a: Addr)
    requires Inv(s) && Enabled(s, Produce(t, a))
    ensures Inv(Next(s, Produce(t, a)).s)
  {
    AllocateInHeap(s.heap, s.chain, s.produced, s.fi, t, a);
  }

  lemma LinkKeepsInv<T>(s: State<T>)
    requires Inv(s) && s.prod.TailRead?
    ensures ProducerNext(s).Running? && Inv(ProducerNext(s).s)
  {
    LinkInHeap(s.heap, s.chain, s.produced, s.fi, s.last, s.prod.n);
  }

  lemma DeleteKeepsInv<T>(s: State<T>)
    requires Inv(s) && s.prod.Unlinked?
    ensures ProducerNext(s).Running? && Inv(ProducerNext(s).s)
  {
    DeleteInHeap(s.heap, s.chain, s.produced, s.fi - 1);
  }

  // The stale copy of `divider` still names a live node, so comparing it with `first` is exact.
  lemma GuardKeepsInv<T>(s: State<T>)
    requires Inv(s) && s.prod.DividerRead?
    ensures ProducerNext(s).Running? && Inv(ProducerNext(s).s)
  {
    var k :| 0 <= k < s.di + 1 - s.fi && s.chain[s.fi..s.di + 1][k] == s.prod.d;
    assert s.chain[s.fi + k] == s.prod.d;
  }

  lemma LinkStepsKeepInv<T>(s: State<T>)
    requires Inv(s) && (s.prod.Allocated? || s.prod.Linked? || s.prod.TailReread?)
    ensures ProducerNext(s).Running? && Inv(ProducerNext(s).s)
  {
    assert NodeOk(s.heap, s.chain, s.produced, s.li);
  }

  lemma PublishKeepsInv<T>(s: State<T>)
    requires Inv(s) && (s.prod.NextRead? || s.prod.Published?)
    ensures ProducerNext(s).Running? && Inv(ProducerNext(s).s)
  {
  }

  lemma CleanupKeepsInv<T>(s: State<T>)
    requires Inv(s)
    requires s.prod.LoopHead? || s.prod.Reclaiming? || s.prod.Saved? || s.prod.FirstRead? || s.prod.SecondRead?
    ensures ProducerNext(s).Running? && Inv(ProducerNext(s).s)
  {
    assert NodeOk(s.heap, s.chain, s.produced, s.fi);
    assert s.chain[s.di] == s.divider;
  }

  lemma ProducerKeepsInv<T>(s: State<T>)
    requires Inv(s) && !s.prod.Idle?
    ensures ProducerNext(s).Running? && Inv(ProducerNext(s).s)
  {
    match s.prod
    case TailRead(_, _) => LinkKeepsInv(s);
    case Unlinked(_) => DeleteKeepsInv(s);
    case DividerRead(_) => GuardKeepsInv(s);
    case LoopHead | Reclaiming | Saved(_) | FirstRead(_, _) | SecondRead(_, _) => CleanupKeepsInv(s);
    case NextRead(_) | Published => PublishKeepsInv(s);
    case _ => LinkStepsKeepInv(s);
  }

  lemma CheckKeepsInv<T>(s: State<T>)
    requires Inv(s) && (s.cons.Guard? || s.cons.NonEmpty?)
    ensures ConsumerNext(s).Running? && Inv(ConsumerNext(s).s)
  {
  }

  lemma TakeKeepsInv<T>(s: State<T>)
    requires Inv(s) && (s.cons.ForValue? || s.cons.ValueNode?)
    ensures ConsumerNext(s).Running? && Inv(ConsumerNext(s).s)
  {
    assert NodeOk(s.heap, s.chain, s.produced, s.di);
    assert NodeOk(s.heap, s.chain, s.produced, s.di + 1);
  }

  lemma FindNextKeepsInv<T>(s: State<T>)
    requires Inv(s) && (s.cons.Taken? || s.cons.ForMove?)
    ensures ConsumerNext(s).Running? && Inv(ConsumerNext(s).s)
  {
    assert NodeOk(s.heap, s.chain, s.produced, s.di);
  }

  lemma MoveKeepsInv<T>(s: State<T>)
    requires Inv(s) && s.cons.MoveTo?
    ensures ConsumerNext(s).Running? && Inv(ConsumerNext(s).s)
  {
    if s.prod.DividerRead? {
      assert s.chain[s.fi..s.di + 1] <= s.chain[s.fi..s.di + 2];
    }
  }

  lemma ReturnKeepsInv<T>(s: State<T>)
    requires Inv(s) && s.cons.Moved?
    ensures ConsumerNext(s).Running? && Inv(ConsumerNext(s).s)
  {
    assert s.produced[..s.di - 1] + [s.produced[s.di - 1]] == s.produced[..s.di];
  }

  /** Every single read or write, by either side, keeps the invariant and touches no freed node. */
  lemma NextKeepsInv<T>(s: State<T>, e: Event<T>)
    requires Inv(s) && Enabled(s, e)
    ensures Next(s, e).Running? && Inv(Next(s, e).s)
  {
    match e
    case Produce(t, a) => CallKeepsInv(s, t, a);
    case ProducerStep => ProducerKeepsInv(s);
    case Consume =>
    case ConsumerStep =>
      match s.cons {
        case Guard(_) | NonEmpty => CheckKeepsInv(s);
        case ForValue(_) | ValueNode(_) => TakeKeepsInv(s);
        case Taken(_) | ForMove(_, _) => FindNextKeepsInv(s);
        case MoveTo(_, _) => MoveKeepsInv(s);
        case Moved(_) => ReturnKeepsInv(s);
      }
  }

  // ------------------------------------------------------------- whole runs

  lemma {:induction false} ExecKeepsInv<T>(s: State<T>, es: seq<Event<T>>)
    requires Inv(s)
    ensures Exec(s, es).Running? && Inv(Exec(s, es).s)
    decreases |es|
  {
    if es == [] {
    } else if Enabled(s, es[0]) {
      NextKeepsInv(s, es[0]);
      ExecKeepsInv(Next(s, es[0]).s, es[1..]);
    } else {
      ExecKeepsInv(s, es[1..]);
    }
  }

  // The node reached from `a` by `n` next-pointers.
  function Follow<T>(heap: map<Addr, Node<T>>, a: Addr, n: nat): Option<Addr>
    decreases n
  {
    if n == 0 then Some(a)
    else if a !in heap || heap[a].next.None? then None
    else Follow(heap, heap[a].next.value, n - 1)
  }

  lemma {:induction false} FollowChain<T>(s: State<T>, i: nat, n: nat)
    requires Inv(s) && s.fi <= i && i + n < |s.chain|
    ensures Follow(s.heap, s.chain[i], n) == Some(s.chain[i + n])
    decreases n
  {
    if n > 0 {
      assert NodeOk(s.heap, s.chain, s.produced, i);
      FollowChain(s, i + 1, n - 1);
    }
  }

  predicate Quiet<T>(s: State<T>) { s.prod.Idle? && s.cons.Waiting? }

  /** For every schedule of every sequence of produce and consume calls: no step touches a freed
      node, the values consumed are a prefix of the values produced, and `_size` is within one of
      the number of nodes between divider and last, exactly that number when both sides are idle. */
  lemma QueueIsCorrect<T>(a: Addr, dummy: T, es: seq<Event<T>>)
    ensures Exec(Init(a, dummy), es).Running?
    ensures var s := Exec(Init(a, dummy), es).s;
      && s.returned <= s.produced
      && (exists n: nat :: Follow(s.heap, s.divider, n) == Some(s.last) && -1 <= s.size - n <= 1)
      && (Quiet(s) ==>
            && s.size == |s.produced| - |s.returned|
            && Follow(s.heap, s.divider, s.size as nat) == Some(s.last))
  {
    var s0 := Init(a, dummy);
    assert NodeOk(s0.heap, s0.chain, s0.produced, 0);
    assert forall b :: b in s0.heap ==> s0.chain[0] == b;
    ExecKeepsInv(s0, es);
    var s := Exec(s0, es).s;
    FollowChain(s, s.di, s.li - s.di);
  }

  // ------------------------------------------- the clean-up loop is bounded

  // Producer steps left in the current call, an upper bound that the consumer cannot raise.
  function StepsLeft<T>(s: State<T>): int {
    var backlog := s.li - s.fi;
    match s.prod
    case Idle => 0
    case Allocated(_) => 7 * backlog + 15
    case TailRead(_, _) => 7 * backlog + 14
    case Linked => 7 * backlog + 13
    case TailReread(_) => 7 * backlog + 12
    case NextRead(_) => 7 * backlog + 11
    case Published => 7 * backlog + 3
    case LoopHead => 7 * backlog + 2
    case DividerRead(_) => 7 * backlog + 1
    case Reclaiming => 7 * backlog
    case Saved(_) => 7 * backlog - 1
    case FirstRead(_, _) => 7 * backlog - 2
    case SecondRead(_, _) => 7 * backlog - 3
    case Unlinked(_) => 7 * backlog + 3
  }

  lemma StepsLeftShrinks<T>(s: State<T>, e: Event<T>)
    requires s.fi <= s.li && !s.prod.Idle? && Enabled(s, e) && Next(s, e).Running?
    ensures StepsLeft(Next(s, e).s) <= StepsLeft(s) - (if e.ProducerStep? then 1 else 0)
  {
  }

  lemma BusyHasStepsLeft<T>(s: State<T>)
    requires Inv(s) && !s.prod.Idle?
    ensures StepsLeft(s) > 0 && s.fi <= s.li
  {
  }

  function ProducerSteps<T>(es: seq<Event<T>>): nat {
    if es == [] then 0 else (if es[0].ProducerStep? then 1 else 0) + ProducerSteps(es[1..])
  }

  // The producer returns from its current call somewhere in the schedule.
  ghost predicate Returns<T>(s: State<T>, es: seq<Event<T>>)
    decreases |es|
  {
    s.prod.Idle? ||
    (es != [] &&
     (if !Enabled(s, es[0]) then Returns(s, es[1..])
      else Next(s, es[0]).Running? && Returns(Next(s, es[0]).s, es[1..])))
  }

  /** produce() is wait-free: from any reachable state it returns after at most `StepsLeft` of its
      own steps, however the consumer moves `divider` in between. From the loop head that is seven
      steps for each of the `last - first` nodes, and two to leave. */
  lemma {:induction false} ProduceIsWaitFree<T>(s: State<T>, es: seq<Event<T>>)
    requires Inv(s) && ProducerSteps(es) >= StepsLeft(s)
    ensures Returns(s, es)
    decreases |es|
  {
    if s.prod.Idle? {
    } else {
      BusyHasStepsLeft(s);
      if Enabled(s, es[0]) {
        NextKeepsInv(s, es[0]);
        StepsLeftShrinks(s, es[0]);
        ProduceIsWaitFree(Next(s, es[0]).s, es[1..]);
      } else {
        ProduceIsWaitFree(s, es[1..]);
      }
    }
  }

  // Nodes freed by the clean-up loop the producer is in, over a schedule that ends when it returns.
  function Frees<T>(s: State<T>, es: seq<Event<T>>): nat
    decreases |es|
  {
    if es == [] || !Cleaning(s) then 0
    else if !Enabled(s, es[0]) then Frees(s, es[1..])
    else match Next(s, es[0])
      case Fault => 0
      case Running(s') => (if es[0].ProducerStep? && s.prod.Unlinked? then 1 else 0) + Frees(s', es[1..])
  }

  lemma FreeingAdvances<T>(s: State<T>, e: Event<T>)
    requires Cleaning(s) && Enabled(s, e) && Next(s, e).Running?
    ensures var s' := Next(s, e).s;
      s'.li == s.li && Lo(s') == Lo(s) + (if e.ProducerStep? && s.prod.Unlinked? then 1 else 0)
  {
  }

  /** One clean-up loop frees at most `last - first` nodes, counted when it starts. */
  lemma {:induction false} CleanupIsBounded<T>(s: State<T>, es: seq<Event<T>>)
    requires Inv(s)
    ensures Frees(s, es) <= s.li - Lo(s)
    decreases |es|
  {
    if es == [] || !Cleaning(s) {
    } else if Enabled(s, es[0]) {
      NextKeepsInv(s, es[0]);
      FreeingAdvances(s, es[0]);
      CleanupIsBounded(Next(s, es[0]).s, es[1..]);
    } else {
      CleanupIsBounded(s, es[1..]);
    }
  }

  // --------------------------------------------------------------- destructor

  // ------------------------------------------------------------ what a produce frees

  // The value of `divider` that the producer holds was read when the consumer had come at least to node k.
  ghost predicate ReadSince<T>(s: State<T>, k: nat) {
    k <= s.di && (s.prod.DividerRead? ==> exists j :: k <= j <= s.di && j < |s.chain| && s.chain[j] == s.prod.d)
  }

  // The state in which the producer first returns.
  function WhenReturned<T>(s: State<T>, es: seq<Event<T>>): Option<State<T>>
    decreases |es|
  {
    if s.prod.Idle? then Some(s)
    else if es == [] then None
    else if !Enabled(s, es[0]) then WhenReturned(s, es[1..])
    else match Next(s, es[0])
      case Fault => None
      case Running(t) => WhenReturned(t, es[1..])
  }

  lemma StepKeepsReadSince<T>(s: State<T>, e: Event<T>, k: nat)
    requires Inv(s) && Enabled(s, e) && !s.prod.Idle? && ReadSince(s, k) && Next(s, e).Running?
    requires !Next(s, e).s.prod.Idle?
    ensures ReadSince(Next(s, e).s, k)
  {
    var t := Next(s, e).s;
    assert s.divider == s.chain[s.di];
    if t.prod.DividerRead? {
      if s.prod.DividerRead? && t.prod == s.prod {
        var j :| k <= j <= s.di && j < |s.chain| && s.chain[j] == s.prod.d;
        assert k <= j <= t.di && j < |t.chain| && t.chain[j] == t.prod.d;
      } else {
        assert t.prod.d == t.chain[t.di];
      }
    }
  }

  // produce returns only when `first` is the divider it has just read.
  lemma ReturnsAtDivider<T>(s: State<T>, e: Event<T>, k: nat)
    requires Inv(s) && Enabled(s, e) && !s.prod.Idle? && ReadSince(s, k) && Next(s, e).Running?
    requires Next(s, e).s.prod.Idle?
    ensures Next(s, e).s.fi >= k
  {
    assert s.prod.DividerRead? && s.prod.d == s.first == s.chain[s.fi];
    var j :| k <= j <= s.di && j < |s.chain| && s.chain[j] == s.prod.d;
    assert Lo(s) == s.fi;
    if j >= s.fi {
      assert j == s.fi;
    }
  }

  /** Nothing consumed is kept: whatever the consumer does meanwhile, when produce returns, every node that was consumed
      before it was called has been freed, and of those linked only the ones from `first` on are left. */
  lemma {:induction false} ProduceReclaims<T>(s: State<T>, es: seq<Event<T>>, k: nat)
    requires Inv(s) && !s.prod.Idle? && ReadSince(s, k)
    ensures WhenReturned(s, es).Some? ==>
      && WhenReturned(s, es).value.fi >= k
      && NoLeak(WhenReturned(s, es).value.heap, WhenReturned(s, es).value.chain, WhenReturned(s, es).value.fi, None)
    decreases |es|
  {
    if es != [] {
      var e := es[0];
      if Enabled(s, e) {
        NextKeepsInv(s, e);
        var t := Next(s, e).s;
        if t.prod.Idle? {
          ReturnsAtDivider(s, e, k);
          hide Next, ReadSince;
        } else {
          StepKeepsReadSince(s, e, k);
          hide Next, Inv, ReadSince;
          ProduceReclaims(t, es[1..], k);
        }
      } else {
        hide Inv, ReadSince;
        ProduceReclaims(s, es[1..], k);
      }
    }
  }

  lemma CallReadsSince<T>(s: State<T>, t: T, a: Addr)
    requires Inv(s) && Enabled(s, Produce(t, a))
    ensures ReadSince(Next(s, Produce(t, a)).s, s.di) && !Next(s, Produce(t, a)).s.prod.Idle?
  {
  }

  /** The destructor, with both threads stopped: frees every node exactly once, whatever
      has been consumed, and never touches a freed one. */
  method Destroy<T>(s: State<T>) returns (heap: map<Addr, Node<T>>)
    requires Inv(s) && Quiet(s)
    ensures heap == map[]
  {
    heap := s.heap;
    var first := Some(s.first);
    ghost var k: nat := s.fi;
    while first != None
      invariant s.fi <= k <= |s.chain|
      invariant first == if k < |s.chain| then Some(s.chain[k]) else None
      invariant ChainOk(heap, s.chain, s.produced, k) && NoLeak(heap, s.chain, k, None)
      decreases |s.chain| - k
    {
      var temp := first.value;
      DeleteInHeap(heap, s.chain, s.produced, k);
      assert NodeOk(heap, s.chain, s.produced, k);
      first := heap[temp].next;
      heap := heap - {temp};
      k := k + 1;
    }
    assert forall a :: a !in heap;
  }
}
