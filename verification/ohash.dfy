// The open-addressing hash table of userland/mandoc/compat_ohash.c.
module OpenHash {
  import opened ProbeSequence
  import opened Options

  // 32-bit hash values.
  type Hash = x: nat | x < 0x1_0000_0000

  const MINSIZE: nat := 16
  const MINDELETED: nat := 4
  const UINT_MAX: nat := 0xffff_ffff

  // With fewer used slots than this, the table never grows beyond
  // MAXSIZE slots, so no 32-bit computation of the source wraps around.
  const MAXSIZE: nat := 0x4000_0000
  const MAXUSED: nat := 0x3000_0000

  datatype Ptr<V> = Null | Deleted | Live(v: V)

  datatype Record<V> = Record(hv: Hash, p: Ptr<V>)

  /*** counting slots **************************************************/

  // The number of slots that are not NULL.
  function Used<V>(s: seq<Record<V>>): (n: nat)
    ensures n <= |s|
  {
    if |s| == 0 then 0 else Used(s[..|s| - 1]) + (if s[|s| - 1].p.Null? then 0 else 1)
  }

  // The number of tombstones.
  function Dels<V>(s: seq<Record<V>>): (n: nat)
    ensures n <= Used(s)
  {
    if |s| == 0 then 0 else Dels(s[..|s| - 1]) + (if s[|s| - 1].p.Deleted? then 1 else 0)
  }

  lemma {:induction false} CountUpdate<V>(s: seq<Record<V>>, i: nat, r: Record<V>)
    requires i < |s|
    ensures Used(s[i := r]) == Used(s) - (if s[i].p.Null? then 0 else 1) + (if r.p.Null? then 0 else 1)
    ensures Dels(s[i := r]) == Dels(s) - (if s[i].p.Deleted? then 1 else 0) + (if r.p.Deleted? then 1 else 0)
  {
    var n := |s| - 1;
    if i == n {
      assert s[i := r][..n] == s[..n];
    } else {
      CountUpdate(s[..n], i, r);
      assert s[i := r][..n] == s[..n][i := r];
    }
  }

  lemma {:induction false} UsedBelowSize<V>(s: seq<Record<V>>) returns (i: nat)
    requires Used(s) < |s|
    ensures i < |s| && s[i].p.Null?
  {
    if s[|s| - 1].p.Null? {
      i := |s| - 1;
    } else {
      i := UsedBelowSize(s[..|s| - 1]);
    }
  }

  lemma {:induction false} NothingUsed<V>(s: seq<Record<V>>)
    requires forall i :: 0 <= i < |s| ==> s[i].p.Null?
    ensures Used(s) == 0
  {
    if |s| > 0 {
      NothingUsed(s[..|s| - 1]);
    }
  }

  lemma {:induction false} LivePrefix<V>(s: seq<Record<V>>, j: nat)
    requires j <= |s|
    ensures Used(s[..j]) - Dels(s[..j]) <= Used(s) - Dels(s)
  {
    if j < |s| {
      LivePrefix(s[..|s| - 1], j);
      assert s[..|s| - 1][..j] == s[..j];
    } else {
      assert s[..j] == s;
    }
  }

  /*** probing *********************************************************/

  // The first j slots probed for hv are not NULL.
  ghost predicate Path<V>(s: seq<Record<V>>, hv: Hash, j: nat)
    requires |s| >= MINSIZE
  {
    forall k :: 0 <= k < j ==> !s[Slot(hv, |s|, k)].p.Null?
  }

  // Slot i is probed for hv before any NULL slot is.
  ghost predicate Reachable<V>(s: seq<Record<V>>, hv: Hash, i: nat)
    requires |s| >= MINSIZE
  {
    exists j: nat :: Slot(hv, |s|, j) == i && Path(s, hv, j)
  }

  lemma PathReaches<V>(s: seq<Record<V>>, hv: Hash, j: nat)
    requires |s| >= MINSIZE && Path(s, hv, j)
    ensures Reachable(s, hv, Slot(hv, |s|, j))
  {
  }

  // Slots stay reachable as long as no slot becomes NULL.
  lemma StaysReachable<V>(s: seq<Record<V>>, s': seq<Record<V>>, hv: Hash, i: nat)
    requires |s'| == |s| >= MINSIZE && Reachable(s, hv, i)
    requires forall x :: 0 <= x < |s| && s'[x].p.Null? ==> s[x].p.Null?
    ensures Reachable(s', hv, i)
  {
    var j: nat :| Slot(hv, |s|, j) == i && Path(s, hv, j);
    assert Path(s', hv, j);
  }

  // A table with a NULL slot stops every probe loop.
  lemma ProbeEnds<V>(s: seq<Record<V>>, hv: Hash) returns (last: nat)
    requires |s| >= MINSIZE && IsPow2(|s|) && Used(s) < |s|
    ensures last < |s| && s[Slot(hv, |s|, last)].p.Null?
  {
    var x := UsedBelowSize(s);
    last := ProbesCoverTable(hv, |s|, x);
  }

  /*** the size of the table ********************************************/

  function NewSize(size: nat, total: nat, deleted: nat): (ns: nat)
    ensures ns >= MINSIZE
  {
    var ns :=
      if 4 * deleted < total then
        (if size >= UINT_MAX / 2 then UINT_MAX else size * 2)
      else if 3 * deleted > 2 * total then size / 2
      else size;
    if ns < MINSIZE then MINSIZE else ns
  }

  lemma MaxSizeIsPow2()
    ensures IsPow2(MAXSIZE)
  {
    TwoToIsPow2(30);
    assert TwoTo(6) == 0x40 && TwoTo(12) == 0x1000 && TwoTo(18) == 0x4_0000 && TwoTo(24) == 0x100_0000;
  }

  // Whatever branch a rehash takes, the table stays a power of two of
  // bounded size.
  lemma NewSizeIsPow2(size: nat, total: nat, deleted: nat)
    requires IsPow2(size) && MINSIZE <= size <= MAXSIZE
    requires 4 * deleted < total ==> size < MAXSIZE
    ensures IsPow2(NewSize(size, total, deleted)) && NewSize(size, total, deleted) <= MAXSIZE
  {
    MaxSizeIsPow2();
    assert IsPow2(16);
    if size < MAXSIZE {
      Pow2Below(size, MAXSIZE);
    }
    assert IsPow2(2 * size);
  }

  // Whatever branch a rehash takes, the entries that are left use at most
  // three quarters of the new slots.
  lemma NewSizeFits(size: nat, total: nat, deleted: nat)
    requires IsPow2(size) && MINSIZE <= size <= MAXSIZE && deleted <= total
    requires 4 * total <= 3 * size + 4
    ensures 4 * (total - deleted) <= 3 * NewSize(size, total, deleted)
  {
    if 4 * deleted >= total {
      if 3 * deleted > 2 * total {
        assert 4 * (total - deleted) <= size + 1 <= 3 * (size / 2);
      } else {
        assert 16 * (total - deleted) <= 9 * size + 12;
      }
    }
  }

  lemma {:induction false} Pow2Below(a: nat, b: nat)
    requires IsPow2(a) && IsPow2(b) && a < b
    ensures 2 * a <= b
  {
    if a > 1 {
      Pow2Below(a / 2, b / 2);
    }
  }

  /*** enumeration *****************************************************/

  // The positions of the live slots from pos on, in ascending order.
  function Positions<V>(s: seq<Record<V>>, pos: nat): (r: seq<nat>)
    decreases |s| - pos
  {
    if pos >= |s| then []
    else if s[pos].p.Live? then [pos] + Positions(s, pos + 1)
    else Positions(s, pos + 1)
  }

  // Positions lists each live slot exactly once.
  lemma {:induction false} PositionsListLive<V>(s: seq<Record<V>>, pos: nat)
    requires pos <= |s|
    ensures forall x :: 0 <= x < |Positions(s, pos)| ==>
              pos <= Positions(s, pos)[x] < |s| && s[Positions(s, pos)[x]].p.Live?
    ensures forall x, y :: 0 <= x < y < |Positions(s, pos)| ==> Positions(s, pos)[x] < Positions(s, pos)[y]
    ensures forall i :: pos <= i < |s| && s[i].p.Live? ==> i in Positions(s, pos)
    decreases |s| - pos
  {
    if pos < |s| {
      PositionsListLive(s, pos + 1);
    }
  }

  lemma {:induction false} PositionsCount<V>(s: seq<Record<V>>, pos: nat)
    requires pos <= |s|
    ensures |Positions(s, pos)| == Used(s) - Dels(s) - (Used(s[..pos]) - Dels(s[..pos]))
    decreases |s| - pos
  {
    if pos < |s| {
      PositionsCount(s, pos + 1);
      assert s[..pos + 1][..pos] == s[..pos];
    } else {
      assert s[..pos] == s;
    }
  }

  // The entries in these slots, in this order.
  function Listing<V>(s: seq<Record<V>>, pos: nat): (r: seq<V>)
    decreases |s| - pos
  {
    if pos >= |s| then []
    else if s[pos].p.Live? then [s[pos].p.v] + Listing(s, pos + 1)
    else Listing(s, pos + 1)
  }

  lemma {:induction false} ListingPositions<V>(s: seq<Record<V>>, pos: nat)
    requires pos <= |s|
    ensures |Listing(s, pos)| == |Positions(s, pos)|
    ensures forall x :: 0 <= x < |Listing(s, pos)| ==>
              Positions(s, pos)[x] < |s| && s[Positions(s, pos)[x]].p == Live(Listing(s, pos)[x])
    decreases |s| - pos
  {
    if pos < |s| {
      ListingPositions(s, pos + 1);
    }
  }

  /*** what a table stands for *****************************************/

  // Every live slot holds an entry that lookups can reach, each key of m is
  // stored in exactly one slot, given by loc, and no other keys are stored.
  ghost predicate Represents<K, V>(s: seq<Record<V>>, m: map<K, V>, loc: map<K, nat>,
                                         keyOf: V -> K, hash: K -> Hash)
    requires |s| >= MINSIZE
  {
    && m.Keys == loc.Keys
    && (forall k :: k in loc ==> loc[k] < |s| && s[loc[k]].p == Live(m[k]) && keyOf(m[k]) == k)
    && (forall i {:trigger s[i]} :: 0 <= i < |s| && s[i].p.Live? ==>
          var k := keyOf(s[i].p.v);
          k in loc && loc[k] == i && s[i].hv == hash(k) && Reachable(s, s[i].hv, i))
  }

  // Slot i is where an entry with the absent key k belongs.
  ghost predicate Vacant<V>(s: seq<Record<V>>, i: nat, hv: Hash)
  {
    |s| >= MINSIZE && i < |s| && !s[i].p.Live? && s[i].hv == hv && Reachable(s, hv, i)
  }

  lemma HolderOf<K, V>(s: seq<Record<V>>, m: map<K, V>, loc: map<K, nat>,
                       keyOf: V -> K, hash: K -> Hash, i: nat)
    requires |s| >= MINSIZE && Represents(s, m, loc, keyOf, hash)
    requires i < |s| && s[i].p.Live?
    ensures
      var k := keyOf(s[i].p.v);
      k in m && m[k] == s[i].p.v && k in loc && loc[k] == i && s[i].hv == hash(k)
  {
  }

  lemma KeysLocated<K, V>(s: seq<Record<V>>, m: map<K, V>, loc: map<K, nat>,
                          keyOf: V -> K, hash: K -> Hash, k: K)
    requires |s| >= MINSIZE && Represents(s, m, loc, keyOf, hash) && k in m
    ensures k in loc && loc[k] < |s| && s[loc[k]].p == Live(m[k])
  {
  }

  // The first j slots probed for hv are not NULL and hold no entry for k.
  ghost predicate Passed<K, V>(s: seq<Record<V>>, keyOf: V -> K, k: K, hv: Hash, j: nat)
    requires |s| >= MINSIZE
  {
    forall x :: 0 <= x < j ==>
      var p := s[Slot(hv, |s|, x)].p;
      !p.Null? && (p.Live? ==> keyOf(p.v) != k)
  }

  lemma NothingPassed<K, V>(s: seq<Record<V>>, keyOf: V -> K, k: K, hv: Hash)
    requires |s| >= MINSIZE
    ensures Passed(s, keyOf, k, hv, 0)
  {
  }

  lemma PassedNext<K, V>(s: seq<Record<V>>, keyOf: V -> K, k: K, hv: Hash, j: nat)
    requires |s| >= MINSIZE && Passed(s, keyOf, k, hv, j)
    requires
      var p := s[Slot(hv, |s|, j)].p;
      !p.Null? && (p.Live? ==> keyOf(p.v) != k)
    ensures Passed(s, keyOf, k, hv, j + 1)
  {
  }

  lemma PassedReaches<K, V>(s: seq<Record<V>>, keyOf: V -> K, k: K, hv: Hash, j: nat, je: nat)
    requires |s| >= MINSIZE && Passed(s, keyOf, k, hv, j) && je <= j
    ensures Reachable(s, hv, Slot(hv, |s|, je))
  {
    PathReaches(s, hv, je);
  }

  // A probe that passes slots up to a NULL slot would have met an entry for k.
  lemma PassedAll<K, V>(s: seq<Record<V>>, m: map<K, V>, loc: map<K, nat>,
                        keyOf: V -> K, hash: K -> Hash, k: K, j: nat)
    requires |s| >= MINSIZE && Represents(s, m, loc, keyOf, hash)
    requires Passed(s, keyOf, k, hash(k), j) && s[Slot(hash(k), |s|, j)].p.Null?
    ensures k !in m
  {
    hide Slot;
  }

  // Storing the hash value of a lookup in a slot without entry is harmless.
  lemma RelabelKeeps<K, V>(s: seq<Record<V>>, m: map<K, V>, loc: map<K, nat>,
                           keyOf: V -> K, hash: K -> Hash, i: nat, hv: Hash)
    requires |s| >= MINSIZE && Represents(s, m, loc, keyOf, hash)
    requires i < |s| && !s[i].p.Live? && Reachable(s, hv, i)
    ensures Represents(s[i := s[i].(hv := hv)], m, loc, keyOf, hash)
    ensures Vacant(s[i := s[i].(hv := hv)], i, hv)
    ensures Used(s[i := s[i].(hv := hv)]) == Used(s) && Dels(s[i := s[i].(hv := hv)]) == Dels(s)
  {
    hide Slot, Used, Dels, Reachable;
    var s' := s[i := s[i].(hv := hv)];
    StaysReachable(s, s', hv, i);
    CountUpdate(s, i, s[i].(hv := hv));
    forall x | 0 <= x < |s'| && s'[x].p.Live?
      ensures Reachable(s', s'[x].hv, x)
    {
      StaysReachable(s, s', s[x].hv, x);
    }
  }

  // The entry of slot i moved into slot e, leaving a tombstone behind.
  function Moved<V>(s: seq<Record<V>>, i: nat, e: nat, hv: Hash): (s': seq<Record<V>>)
    requires i < |s| && e < |s| && i != e
    ensures |s'| == |s|
  {
    s[e := Record(hv, s[i].p)][i := s[i].(p := Deleted)]
  }

  lemma MoveCounts<V>(s: seq<Record<V>>, i: nat, e: nat, hv: Hash)
    requires i < |s| && e < |s| && s[i].p.Live? && s[e].p.Deleted?
    ensures Used(Moved(s, i, e, hv)) == Used(s) && Dels(Moved(s, i, e, hv)) == Dels(s)
  {
    hide Used, Dels;
    CountUpdate(s, e, Record(hv, s[i].p));
    CountUpdate(s[e := Record(hv, s[i].p)], i, s[i].(p := Deleted));
  }

  // Moving an entry into a tombstone probed earlier keeps the map.
  lemma MoveKeeps<K, V>(s: seq<Record<V>>, m: map<K, V>, loc: map<K, nat>,
                        keyOf: V -> K, hash: K -> Hash, k: K, e: nat)
    requires |s| >= MINSIZE && Represents(s, m, loc, keyOf, hash) && k in m
    requires e < |s| && s[e].p.Deleted? && Reachable(s, hash(k), e)
    ensures Represents(Moved(s, loc[k], e, hash(k)), m, loc[k := e], keyOf, hash)
  {
    hide Slot, Used, Dels, Reachable;
    var i := loc[k];
    assert s[i].p.Live? && keyOf(s[i].p.v) == k;
    var s' := Moved(s, i, e, hash(k));
    StaysReachable(s, s', hash(k), e);
    forall x | 0 <= x < |s'| && s'[x].p.Live?
      ensures Reachable(s', s'[x].hv, x)
    {
      if x != e {
        StaysReachable(s, s', s[x].hv, x);
      }
    }
  }

  // Putting an entry with a new key into a vacant slot adds it to the map.
  lemma PutAdds<K, V>(s: seq<Record<V>>, m: map<K, V>, loc: map<K, nat>,
                      keyOf: V -> K, hash: K -> Hash, i: nat, v: V)
    requires |s| >= MINSIZE && Represents(s, m, loc, keyOf, hash)
    requires keyOf(v) !in m && Vacant(s, i, hash(keyOf(v)))
    ensures
      var s' := s[i := s[i].(p := Live(v))];
      && Represents(s', m[keyOf(v) := v], loc[keyOf(v) := i], keyOf, hash)
      && Used(s') == Used(s) + (if s[i].p.Null? then 1 else 0)
      && Dels(s') == Dels(s) - (if s[i].p.Deleted? then 1 else 0)
  {
    hide Slot, Used, Dels, Reachable;
    var s' := s[i := s[i].(p := Live(v))];
    CountUpdate(s, i, s[i].(p := Live(v)));
    StaysReachable(s, s', hash(keyOf(v)), i);
    forall x | 0 <= x < |s'| && s'[x].p.Live?
      ensures Reachable(s', s'[x].hv, x)
    {
      if x != i {
        StaysReachable(s, s', s[x].hv, x);
      }
    }
  }

  // Turning a live slot into a tombstone removes one key from the map.
  lemma BuryRemoves<K, V>(s: seq<Record<V>>, m: map<K, V>, loc: map<K, nat>,
                          keyOf: V -> K, hash: K -> Hash, i: nat)
    requires |s| >= MINSIZE && Represents(s, m, loc, keyOf, hash)
    requires i < |s| && s[i].p.Live?
    ensures
      var s' := s[i := s[i].(p := Deleted)];
      var k := keyOf(s[i].p.v);
      && Represents(s', m - {k}, loc - {k}, keyOf, hash)
      && Used(s') == Used(s) && Dels(s') == Dels(s) + 1
      && k in m && m[k] == s[i].p.v
  {
    hide Slot, Used, Dels, Reachable;
    var s' := s[i := s[i].(p := Deleted)];
    CountUpdate(s, i, s[i].(p := Deleted));
    forall x | 0 <= x < |s'| && s'[x].p.Live?
      ensures Reachable(s', s'[x].hv, x)
    {
      StaysReachable(s, s', s[x].hv, x);
    }
  }

  /*** rehashing *******************************************************/

  // The entries stored in the first j slots.
  ghost function Upto<K, V>(m: map<K, V>, loc: map<K, nat>, j: nat): (r: map<K, V>)
    requires m.Keys == loc.Keys
  {
    map k | k in m && loc[k] < j :: m[k]
  }

  lemma UptoNext<K, V>(s: seq<Record<V>>, m: map<K, V>, loc: map<K, nat>,
                       keyOf: V -> K, hash: K -> Hash, j: nat)
    requires |s| >= MINSIZE && Represents(s, m, loc, keyOf, hash) && j < |s|
    ensures m.Keys == loc.Keys
    ensures
      if s[j].p.Live? then
        var k := keyOf(s[j].p.v);
        && s[j].hv == hash(k) && k !in Upto(m, loc, j)
        && Upto(m, loc, j + 1) == Upto(m, loc, j)[k := s[j].p.v]
      else
        Upto(m, loc, j + 1) == Upto(m, loc, j)
    ensures Used(s[..j + 1]) == Used(s[..j]) + (if s[j].p.Null? then 0 else 1)
    ensures Dels(s[..j + 1]) == Dels(s[..j]) + (if s[j].p.Deleted? then 1 else 0)
  {
    hide Slot, Reachable;
    assert s[..j + 1][..j] == s[..j];
  }

  lemma UptoAll<K, V>(s: seq<Record<V>>, m: map<K, V>, loc: map<K, nat>,
                      keyOf: V -> K, hash: K -> Hash)
    requires |s| >= MINSIZE && Represents(s, m, loc, keyOf, hash)
    ensures m.Keys == loc.Keys && Upto(m, loc, |s|) == m
  {
  }

  lemma CountNone<V>(s: seq<Record<V>>)
    ensures Used(s[..0]) == 0 && Dels(s[..0]) == 0
  {
  }

  lemma EmptyRepresents<K, V>(s: seq<Record<V>>, m: map<K, V>, loc: map<K, nat>,
                              keyOf: V -> K, hash: K -> Hash)
    requires |s| >= MINSIZE && forall i :: 0 <= i < |s| ==> s[i].p.Null?
    requires m.Keys == loc.Keys
    ensures Represents(s, Upto(m, loc, 0), map[], keyOf, hash)
    ensures Used(s) == 0 && Dels(s) == 0
  {
    NothingUsed(s);
  }

  // The first NULL slot probed for hv in a table that has one.
  method FreeSlot<V>(n: array<Record<V>>, hv: Hash) returns (i: nat)
    requires n.Length >= MINSIZE && IsPow2(n.Length) && Used(n[..]) < n.Length
    ensures i < n.Length && n[i].p.Null? && Reachable(n[..], hv, i)
  {
    hide Slot, Stride, Reachable, Used;
    var ns := n.Length;
    FirstSlot(hv, ns);
    i := hv % ns;
    var incr := hv % (ns - 2) / 2 * 2 + 1;
    ghost var s := n[..];
    ghost var last := ProbeEnds(s, hv);
    ghost var j: nat := 0;
    while !n[i].p.Null?
      modifies {}
      invariant i == Slot(hv, |s|, j) && Path(s, hv, j) && j <= last
      decreases last - j
    {
      assert n[i] == s[i];
      NextSlot(hv, ns, j);
      i := i + incr;
      if i >= ns {
        i := i - ns;
      }
      j := j + 1;
    }
    PathReaches(s, hv, j);
  }

  // Enter one record into a new table that has neither its key nor tombstones.
  method Reinsert<K, V>(n: array<Record<V>>, r: Record<V>, ghost m: map<K, V>, ghost loc: map<K, nat>,
                        ghost keyOf: V -> K, ghost hash: K -> Hash)
    returns (ghost i: nat)
    requires n.Length >= MINSIZE && IsPow2(n.Length) && Used(n[..]) < n.Length
    requires Represents(n[..], m, loc, keyOf, hash)
    requires r.p.Live? && keyOf(r.p.v) !in m && r.hv == hash(keyOf(r.p.v))
    modifies n
    ensures Represents(n[..], m[keyOf(r.p.v) := r.p.v], loc[keyOf(r.p.v) := i], keyOf, hash)
    ensures Used(n[..]) == old(Used(n[..])) + 1 && Dels(n[..]) == old(Dels(n[..]))
  {
    hide Represents, Reachable, Used, Dels, Vacant;
    ghost var s := n[..];
    var x := FreeSlot(n, r.hv);
    RelabelKeeps(s, m, loc, keyOf, hash, x, r.hv);
    ghost var s1 := s[x := s[x].(hv := r.hv)];
    PutAdds(s1, m, loc, keyOf, hash, x, r.p.v);
    n[x] := n[x].(hv := r.hv);
    n[x] := n[x].(p := r.p);
    assert n[..] == s1[x := s1[x].(p := Live(r.p.v))];
    i := x;
  }

  /*** the table *******************************************************/

  // An entry v is found under the key keyOf(v); the caller supplies the hash
  // value of a key, and always the same one.
  class Ohash<K(==), V> {
    const keyOf: V -> K
    const hash: K -> Hash

    var t: array<Record<V>>
    var size: nat
    var total: nat
    var deleted: nat

    // What the table stands for, and the slot each key is stored in.
    ghost var m: map<K, V>
    ghost var loc: map<K, nat>

    // What every step keeps, except for the load factor.
    ghost predicate Sound()
      reads this, t
    {
      && t.Length == size && IsPow2(size) && MINSIZE <= size <= MAXSIZE
      && total == Used(t[..]) && deleted == Dels(t[..]) && |m| == total - deleted
      && Represents(t[..], m, loc, keyOf, hash)
    }

    ghost predicate Valid()
      reads this, t
    {
      Sound() && 4 * total <= 3 * size
    }

    // Slot i is where an entry with the absent key k belongs.
    ghost predicate Ready(i: nat, k: K)
      reads this, t
    {
      k !in m && Vacant(t[..], i, hash(k))
    }

    constructor (sz: nat, keyOf: V -> K, hash: K -> Hash)
      requires sz <= 30
      ensures Valid() && fresh(t) && m == map[] && total == deleted == 0
      ensures this.keyOf == keyOf && this.hash == hash
    {
      var n := if TwoTo(sz) < MINSIZE then MINSIZE else TwoTo(sz);
      this.keyOf, this.hash := keyOf, hash;
      size, total, deleted := n, 0, 0;
      m, loc := map[], map[];
      t := new Record<V>[n](_ => Record(0, Null));
      new;
      TwoToIsPow2(sz);
      SizeInRange(sz);
      NothingUsed(t[..]);
      assert IsPow2(16);
    }

    // Move the entry of slot i into the tombstone e found earlier.
    method MoveInto(e: nat, i: nat, k: K, hv: Hash)
      requires Valid() && k in m && k in loc && i == loc[k] && hv == hash(k)
      requires e < size && t[e].p.Deleted? && Reachable(t[..], hv, e)
      modifies this`loc, t
      ensures Valid() && m == old(m) && t[e].p == Live(m[k])
    {
      hide Slot, Represents, Reachable, Used, Dels;
      ghost var s := t[..];
      KeysLocated(s, m, loc, keyOf, hash, k);
      MoveKeeps(s, m, loc, keyOf, hash, k, e);
      MoveCounts(s, i, e, hv);
      t[e] := t[e].(hv := hv);
      t[e] := t[e].(p := t[i].p);
      t[i] := t[i].(p := Deleted);
      assert t[..] == Moved(s, i, e, hv);
      loc := loc[k := e];
    }

    // Prepare slot i for an entry with the absent key k.
    method Claim(i: nat, k: K, hv: Hash)
      requires Valid() && k !in m && hv == hash(k)
      requires i < size && !t[i].p.Live? && Reachable(t[..], hv, i)
      modifies t
      ensures Valid() && Ready(i, k)
    {
      hide Slot, Represents, Reachable, Used, Dels;
      ghost var s := t[..];
      RelabelKeeps(s, m, loc, keyOf, hash, i, hv);
      t[i] := t[i].(hv := hv);
      assert t[..] == s[i := s[i].(hv := hv)];
    }

    // Find the slot of the entry with key k, or else the slot to insert it.
    method Lookup(k: K, hv: Hash) returns (i: nat)
      requires Valid() && hv == hash(k)
      modifies this`loc, t
      ensures Valid() && m == old(m)
      ensures i < t.Length == size
      ensures k in m ==> t[i].p == Live(m[k]) && keyOf(m[k]) == k
      ensures k !in m ==> Ready(i, k) && !t[i].p.Live?
    {
      hide Slot, Stride, Represents, Reachable, Used, Dels, Passed;
      FirstSlot(hv, size);
      var none: nat := size;
      var empty: nat := none;
      i := hv % size;
      var incr := hv % (size - 2) / 2 * 2 + 1;
      ghost var s, l := t[..], loc;
      ghost var last := ProbeEnds(s, hv);
      ghost var j: nat, je: nat := 0, 0;
      NothingPassed(s, keyOf, k, hv);
      while !t[i].p.Null?
        modifies {}
        invariant i == Slot(hv, |s|, j) && Passed(s, keyOf, k, hv, j) && j <= last
        invariant empty != none ==> empty < |s| && s[empty].p.Deleted?
        invariant empty != none ==> je < j && Slot(hv, |s|, je) == empty
        decreases last - j
      {
        if s[i].p.Live? {
          HolderOf(s, m, l, keyOf, hash, i);
        }
        if t[i].p.Deleted? {
          if empty == none {
            empty := i;
            je := j;
          }
        } else if t[i].hv == hv && keyOf(t[i].p.v) == k {
          break;
        }
        PassedNext(s, keyOf, k, hv, j);
        NextSlot(hv, size, j);
        i := i + incr;
        if i >= size {
          i := i - size;
        }
        j := j + 1;
      }
      assert t[..] == s;
      if empty != none {
        PassedReaches(s, keyOf, k, hv, j, je);
      }
      if !t[i].p.Null? {
        if empty != none {
          MoveInto(empty, i, k, hv);
          i := empty;
        }
        return;
      }
      PassedAll(s, m, l, keyOf, hash, k, j);
      PassedReaches(s, keyOf, k, hv, j, j);
      if empty != none {
        i := empty;
      }
      Claim(i, k, hv);
    }

    // Enter all entries into a new array of NULL slots.
    method CopyLive(n: array<Record<V>>) returns (ghost nloc: map<K, nat>)
      requires Sound() && n != t
      requires n.Length >= MINSIZE && IsPow2(n.Length) && total - deleted < n.Length
      requires forall i :: 0 <= i < n.Length ==> n[i].p.Null?
      modifies n
      ensures Represents(n[..], m, nloc, keyOf, hash)
      ensures Used(n[..]) == total - deleted && Dels(n[..]) == 0
    {
      hide Slot, Stride, Represents, Reachable, Used, Dels, IsPow2, Vacant;
      ghost var s, l := t[..], loc;
      nloc := map[];
      UptoAll(s, m, l, keyOf, hash);
      EmptyRepresents(n[..], m, l, keyOf, hash);
      CountNone(s);
      for j := 0 to size
        modifies n
        invariant t[..] == s
        invariant Represents(n[..], Upto(m, l, j), nloc, keyOf, hash)
        invariant Used(n[..]) == Used(s[..j]) - Dels(s[..j]) && Dels(n[..]) == 0
      {
        UptoNext(s, m, l, keyOf, hash, j);
        if !t[j].p.Null? && !t[j].p.Deleted? {
          LivePrefix(s, j + 1);
          ghost var i := Reinsert(n, t[j], Upto(m, l, j), nloc, keyOf, hash);
          nloc := nloc[keyOf(t[j].p.v) := i];
        }
      }
      assert s[..size] == s;
    }

    // Move all entries to a new array without tombstones.
    method Resize()
      requires Sound()
      requires 4 * total <= 3 * size + 4
      requires 4 * deleted < total ==> size < MAXSIZE
      modifies this
      ensures Valid() && m == old(m) && fresh(t)
      ensures deleted == 0 && total == old(total - deleted)
      ensures size == NewSize(old(size), old(total), old(deleted))
    {
      hide Represents, Used, Dels, IsPow2;
      var ns: nat;
      if 4 * deleted < total {
        if size >= UINT_MAX / 2 {
          ns := UINT_MAX;
        } else {
          ns := size * 2;
        }
      } else if 3 * deleted > 2 * total {
        ns := size / 2;
      } else {
        ns := size;
      }
      if ns < MINSIZE {
        ns := MINSIZE;
      }
      assert ns == NewSize(size, total, deleted);
      NewSizeIsPow2(size, total, deleted);
      NewSizeFits(size, total, deleted);
      var n := new Record<V>[ns](_ => Record(0, Null));
      loc := CopyLive(n);
      t := n;
      size := ns;
      total := total - deleted;
      deleted := 0;
    }

    // Remove the entry in slot i and return it, if there is one.
    method Remove(i: nat) returns (r: Option<V>)
      requires Valid() && i < size
      modifies this, t
      ensures Valid() && (t == old(t) || fresh(t))
      ensures r == if old(t[i]).p.Live? then Some(old(t[i]).p.v) else None
      ensures m == if r.Some? then old(m) - {keyOf(r.value)} else old(m)
      ensures r.Some? ==> keyOf(r.value) in old(m) && old(m)[keyOf(r.value)] == r.value
      ensures total <= old(total)
    {
      hide Represents, Used, Dels, IsPow2;
      if t[i].p.Null? || t[i].p.Deleted? {
        return None;
      }
      r := Some(t[i].p.v);
      ghost var s, k := t[..], keyOf(t[i].p.v);
      BuryRemoves(s, m, loc, keyOf, hash, i);
      t[i] := t[i].(p := Deleted);
      assert t[..] == s[i := s[i].(p := Deleted)];
      deleted := deleted + 1;
      m, loc := m - {k}, loc - {k};
      if deleted >= MINDELETED && 4 * deleted > total {
        Resize();
      }
    }

    // The entry in slot i, if there is one.
    method Find(i: nat) returns (r: Option<V>)
      requires i < t.Length
      ensures r == if t[i].p.Live? then Some(t[i].p.v) else None
    {
      if t[i].p.Deleted? || t[i].p.Null? {
        r := None;
      } else {
        r := Some(t[i].p.v);
      }
    }

    // Enter v into the slot that a failed lookup for its key returned.
    method Insert(i: nat, v: V)
      requires Valid() && Ready(i, keyOf(v))
      requires total < MAXUSED
      modifies this, t
      ensures Valid() && (t == old(t) || fresh(t))
      ensures m == old(m)[keyOf(v) := v]
      ensures total <= old(total) + 1 && deleted <= old(deleted)
    {
      hide Represents, Used, Dels, IsPow2;
      ghost var s, k := t[..], keyOf(v);
      PutAdds(s, m, loc, keyOf, hash, i, v);
      ghost var s' := s[i := s[i].(p := Live(v))];
      m, loc := m[k := v], loc[k := i];
      if t[i].p.Deleted? {
        deleted := deleted - 1;
        t[i] := t[i].(p := Live(v));
        assert t[..] == s';
      } else {
        t[i] := t[i].(p := Live(v));
        assert t[..] == s';
        total := total + 1;
        if total * 4 > size * 3 {
          Resize();
        }
      }
    }

    method Entries() returns (n: nat)
      requires Valid()
      ensures n == |m|
    {
      n := total - deleted;
    }

    // Start an enumeration.
    method First() returns (r: Option<V>, pos: nat)
      requires Valid()
      ensures pos <= size
      ensures
        var todo := Listing(t[..], 0);
        if todo == [] then r == None && Listing(t[..], pos) == []
        else r == Some(todo[0]) && Listing(t[..], pos) == todo[1..]
    {
      hide Represents, Used, Dels, IsPow2, Listing;
      r, pos := Next(0);
    }

    // Return the next entry of an enumeration that has come to slot pos.
    method Next(pos: nat) returns (r: Option<V>, pos': nat)
      requires Valid() && pos <= size
      ensures pos' <= size
      ensures
        var todo := Listing(t[..], pos);
        if todo == [] then r == None && Listing(t[..], pos') == []
        else r == Some(todo[0]) && Listing(t[..], pos') == todo[1..]
    {
      hide Represents, Used, Dels, IsPow2;
      pos' := pos;
      while pos' < size
        invariant pos' <= size && Listing(t[..], pos') == Listing(t[..], pos)
      {
        if !t[pos'].p.Deleted? && !t[pos'].p.Null? {
          r := Some(t[pos'].p.v);
          pos' := pos' + 1;
          return;
        }
        pos' := pos' + 1;
      }
      r := None;
    }

    // An enumeration visits each entry once.
    lemma EnumeratesOnce()
      requires Valid()
      ensures
        var all := Listing(t[..], 0);
        && |all| == |m|
        && (forall x :: 0 <= x < |all| ==> keyOf(all[x]) in m && m[keyOf(all[x])] == all[x])
        && (forall x, y :: 0 <= x < y < |all| ==> keyOf(all[x]) != keyOf(all[y]))
        && (forall k :: k in m ==> m[k] in all)
    {
      hide Slot, Reachable, Used, Dels, Represents, Positions, Listing, IsPow2;
      var s, all, ps := t[..], Listing(t[..], 0), Positions(t[..], 0);
      PositionsListLive(s, 0);
      PositionsCount(s, 0);
      ListingPositions(s, 0);
      assert s[..0] == [];
      CountNone(s);
      forall x | 0 <= x < |all|
        ensures keyOf(all[x]) in m && m[keyOf(all[x])] == all[x] && keyOf(all[x]) in loc && loc[keyOf(all[x])] == ps[x]
      {
        HolderOf(s, m, loc, keyOf, hash, ps[x]);
      }
      forall k | k in m
        ensures m[k] in all
      {
        KeysLocated(s, m, loc, keyOf, hash, k);
        var x :| 0 <= x < |ps| && ps[x] == loc[k];
        assert all[x] == m[k];
      }
    }
  }

  // An enumeration of the entries all has come to entry k; slot pos is next.
  ghost predicate Enumerating<K, V>(h: Ohash<K, V>, all: seq<V>, k: nat, pos: nat)
    reads h, h.t
  {
    && k <= |all| && pos <= h.size
    && (k < |all| ==> Listing(h.t[..], pos) == all[k + 1..])
  }

  method FirstEntry<K(==), V>(h: Ohash<K, V>) returns (r: Option<V>, pos: nat)
    requires h.Valid()
    ensures
      var all := Listing(h.t[..], 0);
      Enumerating(h, all, 0, pos) && r == if all == [] then None else Some(all[0])
  {
    hide Ohash.Valid, Listing;
    r, pos := h.First();
  }

  method NextEntry<K(==), V>(h: Ohash<K, V>, pos: nat, ghost all: seq<V>, ghost k: nat) returns (r: Option<V>,
      pos': nat)
    requires h.Valid() && Enumerating(h, all, k, pos) && k < |all|
    ensures Enumerating(h, all, k + 1, pos') && r == if k + 1 < |all| then Some(all[k + 1]) else None
  {
    hide Ohash.Valid, Listing;
    r, pos' := h.Next(pos);
    if k + 1 < |all| {
      assert all[k + 1..][1..] == all[k + 2..];
    }
  }

  /*** runs *************************************************************/

  // What the callers in the repository do with a table: enter an entry
  // unless its key is already there, remove the entry of a key, look up a key.
  datatype Op<K, V> = Enter(v: V) | Drop(k: K) | Ask(k: K)

  function After<K, V>(m: map<K, V>, keyOf: V -> K, op: Op<K, V>): map<K, V> {
    match op
    case Enter(v) => if keyOf(v) in m then m else m[keyOf(v) := v]
    case Drop(k) => m - {k}
    case Ask(k) => m
  }

  // The entry an operation finds under its key.
  function Answer<K, V>(m: map<K, V>, keyOf: V -> K, op: Op<K, V>): Option<V> {
    var k := if op.Enter? then keyOf(op.v) else op.k;
    if k in m then Some(m[k]) else None
  }

  function AfterAll<K, V>(m: map<K, V>, keyOf: V -> K, ops: seq<Op<K, V>>): map<K, V> {
    if ops == [] then m
    else After(AfterAll(m, keyOf, ops[..|ops| - 1]), keyOf, ops[|ops| - 1])
  }

  method Perform<K(==), V>(h: Ohash<K, V>, op: Op<K, V>) returns (r: Option<V>)
    requires h.Valid() && h.total < MAXUSED
    modifies h, h.t
    ensures h.Valid() && (h.t == old(h.t) || fresh(h.t)) && h.total <= old(h.total) + 1
    ensures h.m == After(old(h.m), h.keyOf, op)
    ensures r == Answer(old(h.m), h.keyOf, op)
  {
    hide Represents, Used, Dels, Reachable, IsPow2;
    var k := if op.Enter? then h.keyOf(op.v) else op.k;
    var i := h.Lookup(k, h.hash(k));
    r := h.Find(i);
    if op.Enter? && r == None {
      h.Insert(i, op.v);
    } else if op.Drop? {
      var _ := h.Remove(i);
    }
  }

  // Over every run, the table acts like the map it stands for: each operation
  // finds what the map holds at that time, whatever was moved or rehashed.
  method Run<K(==), V>(h: Ohash<K, V>, ops: seq<Op<K, V>>) returns (found: seq<Option<V>>)
    requires h.Valid() && h.total + |ops| <= MAXUSED
    modifies h, h.t
    ensures h.Valid() && (h.t == old(h.t) || fresh(h.t))
    ensures h.m == AfterAll(old(h.m), h.keyOf, ops)
    ensures |found| == |ops|
    ensures forall x :: 0 <= x < |ops| ==> found[x] == Answer(AfterAll(old(h.m), h.keyOf, ops[..x]), h.keyOf, ops[x])
  {
    hide Ohash.Valid, After, Answer;
    found := [];
    ghost var m0 := h.m;
    for x := 0 to |ops|
      invariant h.Valid() && (h.t == old(h.t) || fresh(h.t))
      invariant h.total + |ops| - x <= MAXUSED
      invariant h.m == AfterAll(m0, h.keyOf, ops[..x])
      invariant |found| == x
      invariant forall y :: 0 <= y < x ==> found[y] == Answer(AfterAll(m0, h.keyOf, ops[..y]), h.keyOf, ops[y])
    {
      assert ops[..x + 1][..x] == ops[..x];
      var r := Perform(h, ops[x]);
      found := found + [r];
    }
    assert ops[..|ops|] == ops;
  }

  lemma SizeInRange(sz: nat)
    requires sz <= 30
    ensures TwoTo(sz) <= MAXSIZE
  {
    TwoToMonotone(sz, 30);
    assert TwoTo(6) == 0x40 && TwoTo(12) == 0x1000 && TwoTo(18) == 0x4_0000 && TwoTo(24) == 0x100_0000;
  }

  lemma {:induction false} TwoToMonotone(a: nat, b: nat)
    requires a <= b
    ensures TwoTo(a) <= TwoTo(b)
  {
    if a < b {
      TwoToMonotone(a, b - 1);
    }
  }
}
