// Growable arrays with a cursor, deletion marks and map positions:
// userland/mandoc/dba_array.c.
module DbaArrays {
  import opened Bytes
  import opened DbaWrite
  import opened Options

  // The indices from i on that are not marked as deleted.
  function LiveFrom(em: seq<int>, i: nat): (r: seq<nat>)
    decreases |em| - i
  {
    if i >= |em| then []
    else if em[i] == -1 then LiveFrom(em, i + 1)
    else [i] + LiveFrom(em, i + 1)
  }

  lemma {:induction false} LiveFromLists(em: seq<int>, i: nat)
    requires i <= |em|
    ensures forall x :: 0 <= x < |LiveFrom(em, i)| ==> i <= LiveFrom(em, i)[x] < |em| && em[LiveFrom(em, i)[x]] != -1
    ensures forall x, y :: 0 <= x < y < |LiveFrom(em, i)| ==> LiveFrom(em, i)[x] < LiveFrom(em, i)[y]
    ensures forall x :: i <= x < |em| && em[x] != -1 ==> x in LiveFrom(em, i)
    decreases |em| - i
  {
    if i < |em| {
      LiveFromLists(em, i + 1);
    }
  }

  // Changes below i do not matter.
  lemma {:induction false} LiveFromSuffix(em: seq<int>, em': seq<int>, i: nat)
    requires |em'| == |em| && i <= |em|
    requires forall x :: i <= x < |em| ==> (em'[x] == -1 <==> em[x] == -1)
    ensures LiveFrom(em', i) == LiveFrom(em, i)
    decreases |em| - i
  {
    if i < |em| {
      LiveFromSuffix(em, em', i + 1);
    }
  }

  lemma {:induction false} LiveFromAppend(em: seq<int>, i: nat)
    requires i <= |em|
    ensures LiveFrom(em + [0], i) == LiveFrom(em, i) + [|em|]
    decreases |em| - i
  {
    if i < |em| {
      LiveFromAppend(em, i + 1);
    }
  }

  lemma {:induction false} LiveFromDelete(em: seq<int>, i: nat, d: nat)
    requires i <= d < |em| && em[d] != -1
    ensures |LiveFrom(em[d := -1], i)| == |LiveFrom(em, i)| - 1
    ensures forall x :: x in LiveFrom(em[d := -1], i) <==> x in LiveFrom(em, i) && x != d
    decreases |em| - i
  {
    if i < d {
      LiveFromDelete(em, i + 1, d);
    } else {
      LiveFromLists(em, i + 1);
      LiveFromSuffix(em, em[d := -1], i + 1);
    }
  }

  // The entries at the given indices.
  function Pick<T>(ep: seq<T>, ix: seq<nat>): (r: seq<T>)
    requires forall x :: 0 <= x < |ix| ==> ix[x] < |ep|
    ensures |r| == |ix|
    ensures forall x :: 0 <= x < |ix| ==> r[x] == ep[ix[x]]
  {
    if ix == [] then [] else [ep[ix[0]]] + Pick(ep, ix[1..])
  }

  // The entries an iteration visits, in order.
  function Live<T>(ep: seq<T>, em: seq<int>): (r: seq<T>)
    requires |em| == |ep|
    ensures |r| == |LiveFrom(em, 0)|
    ensures forall k :: 0 <= k < |r| ==> LiveFrom(em, 0)[k] < |ep| && r[k] == ep[LiveFrom(em, 0)[k]]
  {
    LiveFromLists(em, 0);
    Pick(ep, LiveFrom(em, 0))
  }

  // The map positions of the live entries from i on, in order.
  function PositionsFrom(em: seq<int>, i: nat): (r: seq<nat>)
    requires forall x :: 0 <= x < |em| ==> -1 <= em[x]
    ensures |r| == |LiveFrom(em, i)|
    ensures forall x :: 0 <= x < |r| ==> r[x] in em
    decreases |em| - i
  {
    if i >= |em| then []
    else if em[i] == -1 then PositionsFrom(em, i + 1)
    else [em[i]] + PositionsFrom(em, i + 1)
  }

  lemma {:induction false} NothingDeleted(em: seq<int>, i: nat)
    requires i <= |em| && forall x :: 0 <= x < |em| ==> 0 <= em[x]
    ensures PositionsFrom(em, i) == em[i..]
    decreases |em| - i
  {
    if i < |em| {
      NothingDeleted(em, i + 1);
      assert em[i..] == [em[i]] + em[i + 1..];
    }
  }

  class DbaArray<T> {
    var ep: seq<T>    // entries
    var em: seq<int>  // map positions; -1 marks a deleted entry
    const grow: bool
    var ea: nat       // entries allocated
    var ed: nat       // entries deleted
    var ec: nat       // currently active entry
    var pos: nat      // map position of this array

    ghost predicate Valid()
      reads this
    {
      && |em| == |ep| <= ea && 0 < ea && ec <= |ep|
      && |ep| - ed == |LiveFrom(em, 0)|
    }

    constructor (ea: nat, grow: bool)
      requires ea > 0
      ensures Valid() && ep == [] && em == [] && pos == 0
      ensures this.ea == ea && this.grow == grow
    {
      this.ea, this.grow := ea, grow;
      ep, em, ed, ec, pos := [], [], 0, 0, 0;
    }

    // Overwrite entry ie, or append if ie is just beyond the last entry.
    // Overwriting a deleted entry brings it back without correcting the
    // count of deleted entries.
    method Set(ie: nat, entry: T)
      requires Valid() && ie < ea && ie <= |ep|
      modifies this
      ensures (ie < old(|ep|) && old(em)[ie] == -1) || Valid()
      ensures ep == if ie < old(|ep|) then old(ep)[ie := entry] else old(ep) + [entry]
      ensures em == if ie < old(|ep|) then old(em)[ie := 0] else old(em) + [0]
      ensures ec == old(ec) && ed == old(ed) && pos == old(pos) && ea == old(ea)
    {
      if ie == |ep| {
        LiveFromAppend(em, 0);
        ep := ep + [entry];
        em := em + [0];
      } else {
        if em[ie] != -1 {
          LiveFromSuffix(em, em[ie := 0], 0);
        }
        ep := ep[ie := entry];
        em := em[ie := 0];
      }
    }

    method Add(entry: T)
      requires Valid() && (|ep| == ea ==> grow)
      modifies this
      ensures Valid()
      ensures ep == old(ep) + [entry] && em == old(em) + [0]
      ensures ec == old(ec) && ed == old(ed) && pos == old(pos)
      ensures ea == if old(|ep|) == old(ea) then 2 * old(ea) else old(ea)
    {
      if |ep| == ea {
        ea := ea * 2;
      }
      Set(|ep|, entry);
    }

    method Get(ie: int) returns (r: Option<T>)
      requires Valid()
      ensures r == if 0 <= ie < |ep| && em[ie] != -1 then Some(ep[ie]) else None
    {
      if ie < 0 || ie >= |ep| || em[ie] == -1 {
        return None;
      }
      r := Some(ep[ie]);
    }

    // Start an iteration.
    method Start()
      requires Valid()
      modifies this`ec
      ensures Valid() && ec == |ep|
    {
      ec := |ep|;
    }

    // Advance an iteration to the next entry that is not deleted.
    method Next() returns (r: Option<T>)
      requires Valid()
      modifies this`ec
      ensures Valid()
      ensures
        var todo := LiveFrom(em, if old(ec) < |ep| then old(ec) + 1 else 0);
        if todo == [] then r == None && ec == |ep|
        else ec == todo[0] < |ep| && r == Some(ep[ec]) && LiveFrom(em, ec + 1) == todo[1..]
    {
      if ec < |ep| {
        ec := ec + 1;
      } else {
        ec := 0;
      }
      ghost var first := ec;
      while ec < |ep| && em[ec] == -1
        invariant ec <= |ep| && LiveFrom(em, ec) == LiveFrom(em, first)
      {
        ec := ec + 1;
      }
      r := if ec < |ep| then Some(ep[ec]) else None;
    }

    // Mark the current entry as deleted.
    method Del()
      requires Valid()
      modifies this
      ensures Valid()
      ensures em == if old(ec) < old(|ep|) then old(em)[old(ec) := -1] else old(em)
      ensures ep == old(ep) && ec == old(ec) && pos == old(pos) && ea == old(ea)
    {
      if ec < |ep| && em[ec] != -1 {
        LiveFromDelete(em, 0, ec);
        em := em[ec := -1];
        ed := ed + 1;
      }
    }

    method SetPos(ie: nat, p: nat)
      requires Valid() && ie < |em|
      modifies this`em
      ensures em == old(em)[ie := p]
      ensures old(em)[ie] == -1 || Valid()
    {
      if em[ie] != -1 {
        LiveFromSuffix(em, em[ie := p], 0);
      }
      em := em[ie := p];
    }

    // Write the number of live entries and leave room for their positions.
    method WriteLen(st: Stream, nmemb: nat) returns (r: Option<nat>)
      requires Valid() && st.Valid() && 0 < nmemb <= 5 && |ep| <= INT32_MAX
      modifies st
      ensures st.Valid()
      ensures r == if old(st.pos) + 4 < INT32_MAX then Some(old(st.pos) + 4) else None
      ensures r.None? ==> |st.buf| >= INT32_MAX
      ensures r.Some? ==>
                var n := |LiveFrom(em, 0)|;
                && st.pos == old(st.pos) + 4 + 4 * nmemb * n
                && st.buf == Put(old(st.buf), old(st.pos), IntBytes(n) + Zeros(4 * nmemb * n))
    {
      st.IntWrite(|ep| - ed);
      ghost var n := |ep| - ed;
      r := st.Skip(nmemb, |ep| - ed);
      PutTwice(old(st.buf), old(st.pos), IntBytes(n), Zeros(4 * nmemb * n));
    }

    // Write the map positions of the live entries, remembering where.
    method WritePos(st: Stream) returns (r: Option<nat>)
      requires Valid() && st.Valid()
      requires forall i :: 0 <= i < |em| ==> -1 <= em[i] <= INT32_MAX
      modifies this`pos, st
      ensures Valid() && st.Valid()
      ensures r == if old(st.pos) < INT32_MAX then Some(old(st.pos)) else None
      ensures r.None? ==> |st.buf| >= INT32_MAX
      ensures r.Some? ==>
                && pos == old(st.pos)
                && st.pos == old(st.pos) + 4 * |PositionsFrom(em, 0)|
                && st.buf == Put(old(st.buf), old(st.pos), Ints(PositionsFrom(em, 0)))
    {
      hide Put, Ints, IntBytes, LiveFrom;
      r := st.Tell();
      if r.None? {
        return;
      }
      pos := r.value;
      ghost var b, p, done: seq<nat> := st.buf, st.pos, [];
      PutNothing(b, p);
      for ie := 0 to |em|
        invariant Valid() && st.Valid() && pos == p && st.pos == p + 4 * |done|
        invariant done + PositionsFrom(em, ie) == PositionsFrom(em, 0)
        invariant st.buf == Put(b, p, Ints(done))
      {
        if em[ie] != -1 {
          st.IntWrite(em[ie]);
          PutTwice(b, p, Ints(done), IntBytes(em[ie]));
          IntsSnoc(done, em[ie]);
          assert done + [em[ie]] + PositionsFrom(em, ie + 1) == done + PositionsFrom(em, ie);
          done := done + [em[ie]];
        }
      }
      assert PositionsFrom(em, |em|) == [];
      assert done == PositionsFrom(em, 0);
    }
  }
}
