/** Candidate and pair priorities (sections 4.1.2.1 and 5.7.2 of RFC 5245), with the bit operations and the
    32-bit arithmetic of src/ice/candidate.cpp, src/ice/stun_request.cpp and src/ice/ice_connection.cpp. */
module Priority {
  import opened Bytes

  const TWO24 := 0x100_0000
  const TWO31 := 0x8000_0000
  const TWO32 := 0x1_0000_0000
  const TWO64 := 0x1_0000_0000_0000_0000

  const PRFLX := 110

  // ------------------------------------------------------------- bit operations

  function BitOr(a: nat, b: nat): nat
    decreases a + b
  {
    if a == 0 && b == 0 then 0
    else (if a % 2 == 1 || b % 2 == 1 then 1 else 0) + 2 * BitOr(a / 2, b / 2)
  }

  function BitAnd(a: nat, b: nat): nat
    decreases a + b
  {
    if a == 0 || b == 0 then 0
    else (if a % 2 == 1 && b % 2 == 1 then 1 else 0) + 2 * BitAnd(a / 2, b / 2)
  }

  // x << k on 32 bits.
  function Shl32(x: nat, k: nat): nat { x * Pow2(k) % TWO32 }

  lemma {:induction false} OrZero(a: nat)
    ensures BitOr(a, 0) == a
  {
    if a != 0 {
      OrZero(a / 2);
    }
  }

  lemma ShiftOut(a: nat, p: nat)
    ensures a * (2 * p) % 2 == 0 && a * (2 * p) / 2 == a * p
  {
    assert a * (2 * p) == 2 * (a * p);
  }

  /** Fields that do not overlap: or is addition. */
  lemma {:induction false} OrOfDisjoint(a: nat, b: nat, k: nat)
    requires b < Pow2(k)
    ensures BitOr(a * Pow2(k), b) == a * Pow2(k) + b
    decreases k
  {
    if k == 0 {
      OrZero(a);
    } else {
      OrOfDisjoint(a, b / 2, k - 1);
      var p := Pow2(k - 1);
      var high := a * (2 * p);
      ShiftOut(a, p);
      assert BitOr(high, b) == b % 2 + 2 * BitOr(high / 2, b / 2);
    }
  }

  /** A mask of k ones keeps the low k bits. */
  lemma {:induction false} AndOfMask(x: nat, k: nat)
    ensures BitAnd(x, Pow2(k) - 1) == x % Pow2(k)
    decreases k
  {
    if k > 0 {
      var p := Pow2(k - 1);
      AndOfMask(x / 2, k - 1);
      assert (2 * p - 1) / 2 == p - 1 && (2 * p - 1) % 2 == 1;
      LowBits(x, p);
    }
  }

  lemma LowBits(x: nat, p: nat)
    requires p > 0
    ensures x % (2 * p) == x % 2 + 2 * (x / 2 % p)
  {
    var q, r := x / 2 / p, x / 2 % p;
    assert x / 2 == q * p + r;
    assert x == 2 * (q * p) + (2 * r + x % 2);
    assert 2 * (q * p) == q * (2 * p);
    Remainder(q, 2 * p, 2 * r + x % 2);
  }

  lemma Remainder(q: nat, m: nat, r: nat)
    requires r < m
    ensures (q * m + r) % m == r && (q * m + r) / m == q
  {
    var x := q * m + r;
    assert x == x / m * m + x % m;
    MulGap(x / m, q, m);
    MulGap(q, x / m, m);
  }

  lemma {:induction false} MulGap(a: nat, b: nat, m: nat)
    ensures a < b ==> a * m + m <= b * m
    decreases b
  {
    if a < b {
      MulGap(a, b - 1, m);
      assert b * m == (b - 1) * m + m;
    }
  }

  lemma Powers()
    ensures Pow2(8) == 256 && Pow2(24) == TWO24
  {
    assert Pow2(8) == 256;
    assert Pow2(16) == 256 * Pow2(8);
    assert Pow2(24) == 256 * Pow2(16);
  }

  // --------------------------------------------------------- candidate priority

  // Candidate::get_priority; `address` is the precedence of the address plus the relay preference.
  function CandidatePriority(typePref: nat, adapter: nat, address: nat, component: nat): nat
    requires component <= 256
  {
    var localPref := BitOr(Shl32(adapter, 8), address);
    BitOr(BitOr(Shl32(typePref, 24), Shl32(localPref, 8)), 256 - component)
  }

  // The ranges of section 4.1.2.1, the local preference being two bytes.
  predicate InRange(typePref: nat, adapter: nat, address: nat, component: nat) {
    typePref <= 126 && adapter < 256 && address < 256 && 1 <= component <= 256
  }

  function SumFormula(typePref: nat, localPref: nat, component: nat): nat
    requires component <= 256
  {
    TWO24 * typePref + 256 * localPref + (256 - component)
  }

  /** The or of shifted fields is the sum of section 4.1.2.1, and a positive 31-bit number or zero. */
  lemma CandidateFormula(typePref: nat, adapter: nat, address: nat, component: nat)
    requires InRange(typePref, adapter, address, component)
    ensures CandidatePriority(typePref, adapter, address, component) ==
            SumFormula(typePref, 256 * adapter + address, component) < TWO31
  {
    hide BitOr, Pow2;
    Powers();
    OrOfDisjoint(adapter, address, 8);
    var localPref := 256 * adapter + address;
    OrOfDisjoint(typePref, 256 * localPref, 24);
    OrOfDisjoint(65536 * typePref + localPref, 256 - component, 8);
  }

  /** No two different sets of preferences share a priority. */
  lemma CandidateIsInjective(t: nat, a: nat, p: nat, c: nat, t': nat, a': nat, p': nat, c': nat)
    requires InRange(t, a, p, c) && InRange(t', a', p', c')
    ensures CandidatePriority(t, a, p, c) == CandidatePriority(t', a', p', c') ==>
            t == t' && a == a' && p == p' && c == c'
  {
    hide CandidatePriority;
    CandidateFormula(t, a, p, c);
    CandidateFormula(t', a', p', c');
  }

  // ConnectionRequest::prepare: the PRIORITY attribute sent in a check.
  function PeerReflexive(priority: nat): nat { BitOr(Shl32(PRFLX, 24), BitAnd(priority, TWO24 - 1)) }

  /** The priority announced in a check is the local candidate's with the type preference replaced. */
  lemma PeerReflexiveReplacesType(typePref: nat, adapter: nat, address: nat, component: nat)
    requires InRange(typePref, adapter, address, component)
    ensures PeerReflexive(CandidatePriority(typePref, adapter, address, component)) ==
            CandidatePriority(PRFLX, adapter, address, component)
  {
    hide BitOr, BitAnd, Pow2, CandidatePriority;
    var p := CandidatePriority(typePref, adapter, address, component);
    CandidateFormula(typePref, adapter, address, component);
    CandidateFormula(PRFLX, adapter, address, component);
    Powers();
    AndOfMask(p, 24);
    OrOfDisjoint(PRFLX, p % TWO24, 24);
  }

  // -------------------------------------------------------------- pair priority

  function Min(g: nat, d: nat): nat { if g < d then g else d }
  function Max(g: nat, d: nat): nat { if g < d then d else g }

  // IceConnection::priority: twice the larger priority is computed on 32 bits, the rest on 64.
  function PairPriority(g: nat, d: nat): nat {
    (Min(g, d) * TWO32 % TWO64 + 2 * Max(g, d) % TWO32 + (if g > d then 1 else 0)) % TWO64
  }

  // Section 5.7.2.
  function PairFormula(g: nat, d: nat): nat { TWO32 * Min(g, d) + 2 * Max(g, d) + (if g > d then 1 else 0) }

  lemma Double32(x: nat)
    requires x < TWO32
    ensures 2 * x % TWO32 == if x < TWO31 then 2 * x else 2 * x - TWO32
  {
  }

  lemma Fits64(x: nat)
    requires x < TWO64
    ensures x % TWO64 == x
  {
  }

  /** For 32-bit priorities the code computes the formula exactly if both are below 2^31. */
  lemma PairFormulaExactly(g: nat, d: nat)
    requires g < TWO32 && d < TWO32
    ensures PairPriority(g, d) == PairFormula(g, d) <==> g < TWO31 && d < TWO31
    ensures (g < TWO31 && d < TWO31) || PairPriority(g, d) == PairFormula(g, d) - TWO32
  {
    Double32(Max(g, d));
    Fits64(Min(g, d) * TWO32);
    Fits64(Min(g, d) * TWO32 + 2 * Max(g, d) % TWO32 + (if g > d then 1 else 0));
  }

  predicate InPriorityRange(p: nat) { 1 <= p < TWO31 }

  /** Pairs are ordered by the smaller priority, then the larger one, then the side it is on. */
  lemma PairOrder(g: nat, d: nat, g': nat, d': nat)
    requires InPriorityRange(g) && InPriorityRange(d) && InPriorityRange(g') && InPriorityRange(d')
    ensures PairPriority(g, d) < PairPriority(g', d') <==>
            || Min(g, d) < Min(g', d')
            || (Min(g, d) == Min(g', d') && Max(g, d) < Max(g', d'))
            || (Min(g, d) == Min(g', d') && Max(g, d) == Max(g', d') && g <= d && g' > d')
  {
    PairFormulaExactly(g, d);
    PairFormulaExactly(g', d');
    hide PairPriority;
  }

  lemma PairIsInjective(g: nat, d: nat, g': nat, d': nat)
    requires InPriorityRange(g) && InPriorityRange(d) && InPriorityRange(g') && InPriorityRange(d')
    ensures PairPriority(g, d) == PairPriority(g', d') ==> g == g' && d == d'
  {
    PairOrder(g, d, g', d');
    PairOrder(g', d', g, d);
  }

  /** A priority of 2^31 or more, which a peer can send, breaks the order: a better pair ranks lower. */
  lemma PairOrderBreaks()
    ensures PairPriority(1, TWO31) < PairPriority(1, 2)
  {
  }
}
