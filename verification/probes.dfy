// The probe sequence of the open-addressing hash table of
// userland/mandoc/compat_ohash.c, and the number theory behind it: an odd
// stride generates the integers modulo a power of two, so a probe sequence
// visits every slot of the table.
module ProbeSequence {

  // The number of slots of a table is one of these.
  predicate IsPow2(n: nat) {
    n == 1 || (n > 1 && n % 2 == 0 && IsPow2(n / 2))
  }

  // The shift 1 << k.
  function TwoTo(k: nat): (n: nat)
    ensures n >= 1
  {
    if k == 0 then 1 else 2 * TwoTo(k - 1)
  }

  lemma {:induction false} TwoToIsPow2(k: nat)
    ensures IsPow2(TwoTo(k))
  {
    if k > 0 {
      TwoToIsPow2(k - 1);
    }
  }

  // The step the probe loops take from slot i.
  function Step(i: nat, d: nat, n: nat): (r: nat)
    requires i < n && d < n
    ensures r < n
  {
    if i + d >= n then i + d - n else i + d
  }

  // The slot reached from slot i in j steps.
  function Walk(i: nat, d: nat, n: nat, j: nat): (r: nat)
    requires i < n && d < n
    ensures r < n
  {
    if j == 0 then i else Step(Walk(i, d, n, j - 1), d, n)
  }

  // How often these j steps wrap around the end of the table.
  function Wraps(i: nat, d: nat, n: nat, j: nat): nat
    requires i < n && d < n
  {
    if j == 0 then 0
    else Wraps(i, d, n, j - 1) + (if Walk(i, d, n, j - 1) + d >= n then 1 else 0)
  }

  // The first slot probed for the hash value hv in a table of n slots.
  function Start(hv: nat, n: nat): (i: nat)
    requires n >= 16
    ensures i < n
  {
    hv % n
  }

  // The distance between two slots probed in sequence for hv.
  function Stride(hv: nat, n: nat): (d: nat)
    requires n >= 16
    ensures d < n && d % 2 == 1
  {
    hv % (n - 2) / 2 * 2 + 1
  }

  // The j-th slot probed for hv.
  function Slot(hv: nat, n: nat, j: nat): (i: nat)
    requires n >= 16
    ensures i < n
  {
    Walk(Start(hv, n), Stride(hv, n), n, j)
  }

  // How the probe loops of the source compute these slots.
  lemma FirstSlot(hv: nat, n: nat)
    requires n >= 16
    ensures Slot(hv, n, 0) == hv % n
    ensures Stride(hv, n) == hv % (n - 2) / 2 * 2 + 1
  {
  }

  lemma NextSlot(hv: nat, n: nat, j: nat)
    requires n >= 16
    ensures Slot(hv, n, j + 1) == Step(Slot(hv, n, j), Stride(hv, n), n)
  {
  }

  lemma Distribute(a: int, b: int, c: int)
    ensures (a + b) * c == a * c + b * c
  {
  }

  lemma Associate(a: int, b: int, c: int)
    ensures a * b * c == a * (b * c)
  {
  }

  lemma {:induction false} WalkClosedForm(i: nat, d: nat, n: nat, j: nat)
    requires i < n && d < n
    ensures i + j * d == Walk(i, d, n, j) + Wraps(i, d, n, j) * n
  {
    if j > 0 {
      WalkClosedForm(i, d, n, j - 1);
      Distribute(j - 1, 1, d);
      Distribute(Wraps(i, d, n, j - 1), 1, n);
    }
  }

  // Modulo a power of two, every odd number has an inverse: d * m == 1 + c * n.
  // An inverse modulo n / 2 is either one modulo n already or becomes one
  // after adding n / 2.
  lemma {:induction false} OddHasInverse(d: nat, n: nat) returns (m: nat, c: int)
    requires IsPow2(n) && d % 2 == 1
    ensures d * m == 1 + c * n
  {
    if n == 1 {
      m, c := 0, -1;
    } else {
      var h := n / 2;
      var m0, c0 := OddHasInverse(d, h);
      if c0 % 2 == 0 {
        m, c := m0, c0 / 2;
        Associate(c, 2, h);
      } else {
        m, c := m0 + h, (c0 + d) / 2;
        Distribute(m0, h, d);
        Distribute(c0, d, h);
        Associate(c, 2, h);
      }
    }
  }

  lemma Divide(k: nat, n: nat) returns (q: nat, r: nat)
    requires n > 0
    ensures k == q * n + r && r < n
  {
    q, r := k / n, k % n;
  }

  lemma Monotone(a: int, b: int, n: nat)
    requires a <= b
    ensures a * n <= b * n
  {
  }

  // Zero is the only multiple of n between -n and n.
  lemma MultipleBelow(k: int, n: nat)
    requires 0 - n < k * n < n
    ensures k == 0
  {
    if k > 0 {
      Monotone(1, k, n);
    } else if k < 0 {
      Monotone(k, -1, n);
    }
  }

  // Residues below n are unique.
  lemma SameResidue(a: int, q: int, b: int, r: int, n: nat)
    requires 0 <= a < n && 0 <= b < n && a + q * n == b + r * n
    ensures a == b
  {
    Distribute(q - r, r, n);
    MultipleBelow(q - r, n);
  }

  // A walk of j steps ends in the slot with the residue of i + j * d.
  lemma Lands(i: nat, d: nat, n: nat, j: nat, x: nat, q: int)
    requires i < n && d < n && x < n
    requires i + j * d == x + q * n
    ensures Walk(i, d, n, j) == x
  {
    WalkClosedForm(i, d, n, j);
    SameResidue(x, q, Walk(i, d, n, j), Wraps(i, d, n, j), n);
  }

  // Multiplying by the inverse of the stride turns a distance into steps.
  lemma StepsFor(s: int, d: int, m: int, c: int, n: int)
    requires d * m == 1 + c * n
    ensures s * m * d == s + s * c * n
  {
    Associate(s, m, d);
    Distribute(1, c * n, s);
    Associate(s, c, n);
  }

  // An odd stride reaches every slot from every slot.
  lemma WalkReaches(i: nat, d: nat, n: nat, x: nat) returns (j: nat)
    requires i < n && d < n && x < n && IsPow2(n) && d % 2 == 1
    ensures Walk(i, d, n, j) == x
  {
    var m, c := OddHasInverse(d, n);
    var s := x + n - i;
    j := s * m;
    StepsFor(s, d, m, c, n);
    Distribute(1, s * c, n);
    Lands(i, d, n, j, x, 1 + s * c);
  }

  lemma WholeRounds(q: int, n: int, k: int, d: int)
    ensures (q * n + k) * d == q * d * n + k * d
  {
    Distribute(q * n, k, d);
    Associate(q, n, d);
    Associate(q, d, n);
  }

  // A walk repeats after n steps.
  lemma WalkPeriodic(i: nat, d: nat, n: nat, q: nat, k: nat)
    requires i < n && d < n
    ensures Walk(i, d, n, q * n + k) == Walk(i, d, n, k)
  {
    WholeRounds(q, n, k, d);
    WalkClosedForm(i, d, n, k);
    Distribute(Wraps(i, d, n, k), q * d, n);
    Lands(i, d, n, q * n + k, Walk(i, d, n, k), Wraps(i, d, n, k) + q * d);
  }

  // An odd stride reaches every slot within n steps.
  lemma WalkCovers(i: nat, d: nat, n: nat, x: nat) returns (j: nat)
    requires i < n && d < n && x < n && IsPow2(n) && d % 2 == 1
    ensures j < n && Walk(i, d, n, j) == x
  {
    var k := WalkReaches(i, d, n, x);
    var q;
    q, j := Divide(k, n);
    WalkPeriodic(i, d, n, q, j);
  }

  // Every slot is probed for every hash value, within the first n probes.
  lemma ProbesCoverTable(hv: nat, n: nat, x: nat) returns (j: nat)
    requires n >= 16 && IsPow2(n) && x < n
    ensures j < n && Slot(hv, n, j) == x
  {
    j := WalkCovers(Start(hv, n), Stride(hv, n), n, x);
  }
}
