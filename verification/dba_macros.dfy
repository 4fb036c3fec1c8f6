// Macro tables of the database in memory, and writing them:
// userland/mandoc/dba.c.
module DbaMacros {
  import opened Bytes
  import opened DbaPages
  import opened DbaWrite
  import opened Layout
  import opened Options
  import opened OpenHash
  import opened Order
  import opened Sizes

  // A value of a macro, and the pages where the macro has this value.
  class MacroEntry {
    const value: Str
    var pages: seq<Page>

    constructor (value: Str)
      ensures this.value == value && pages == []
    {
      this.value, pages := value, [];
    }
  }

  function EntryKey(e: MacroEntry): Str {
    e.value
  }

  type MacroTable = Ohash<Str, MacroEntry>

  // The positions of those of these pages that are in the file, when each
  // page p has position at[p].
  ghost function Refs(ps: seq<Page>, at: map<Page, nat>): (r: seq<nat>)
  {
    if ps == [] then []
    else
      var p, r := ps[|ps| - 1], Refs(ps[..|ps| - 1], at);
      if p in at && at[p] != 0 then r + [at[p]] else r
  }

  ghost predicate Positioned(at: map<Page, nat>)
    reads at.Keys
  {
    forall p :: p in at ==> p.pos == at[p] <= INT32_MAX
  }

  // Each entry is filed under its value, which can be written as a C string.
  ghost predicate TableOk(macro: MacroTable)
    reads macro, macro.t
  {
    && macro.Valid()
    && forall k :: k in macro.m ==> macro.keyOf(macro.m[k]) == k == macro.m[k].value && k != [] && NoNul(k)
  }

  // The page references of each value of a macro.
  ghost predicate Describes(refs: map<Str, seq<nat>>, m: map<Str, MacroEntry>, at: map<Page, nat>)
    reads m.Values
  {
    && refs.Keys == m.Keys
    && forall k {:trigger m[k]} {:trigger refs[k]} :: k in m ==>
         && m[k] in m.Values
         && (forall p :: p in m[k].pages ==> p in at)
         && refs[k] == Refs(m[k].pages, at)
  }

  // These are the values of a macro that occur in some page of the file, in
  // ascending order, each with its page references.
  ghost predicate Tabulates(vs: seq<Value>, refs: map<Str, seq<nat>>) {
    && (forall i :: 0 <= i < |vs| ==> vs[i].key in refs && vs[i].refs == refs[vs[i].key] != [])
    && (forall k :: k in refs && refs[k] != [] ==> k in Keys(vs))
    && (forall i, j :: 0 <= i < j < |vs| ==> vs[i].key != vs[j].key && LexLeq(vs[i].key, vs[j].key))
  }

  // There is just one such table.
  lemma TabulatesUnique(vs: seq<Value>, ws: seq<Value>, refs: map<Str, seq<nat>>)
    requires Tabulates(vs, refs) && Tabulates(ws, refs)
    ensures vs == ws
  {
    hide LexLeq;
    TabulatedKeys(vs, refs);
    TabulatedKeys(ws, refs);
    RisingUnique(Keys(vs), Keys(ws));
    forall i | 0 <= i < |vs|
      ensures vs[i] == ws[i]
    {
      assert Keys(vs)[i] == Keys(ws)[i];
    }
  }

  lemma TabulatedKeys(vs: seq<Value>, refs: map<Str, seq<nat>>)
    requires Tabulates(vs, refs)
    ensures Rising(Keys(vs)) && forall k :: k in Keys(vs) <==> k in refs && refs[k] != []
  {
    hide LexLeq;
    forall k | k in Keys(vs)
      ensures k in refs && refs[k] != []
    {
      var i :| 0 <= i < |vs| && Keys(vs)[i] == k;
    }
  }

  // The values come in alphabetical order, each once, and they are those that
  // occur in some page of the file.
  lemma ValuesInOrder(vs: seq<Value>, refs: map<Str, seq<nat>>)
    requires Tabulates(vs, refs)
    ensures forall i, j :: 0 <= i < j < |vs| ==> vs[i].key != vs[j].key && Alphabetical(vs[i].key, vs[j].key)
    ensures forall k :: (exists i :: 0 <= i < |vs| && vs[i].key == k) <==> k in refs && refs[k] != []
  {
    hide LexLeq, Alphabetical;
    TabulatedKeys(vs, refs);
    forall i, j | 0 <= i < j < |vs|
      ensures Alphabetical(vs[i].key, vs[j].key)
    {
      LexIsAlphabetical(vs[i].key, vs[j].key);
    }
    forall k
      ensures (exists i :: 0 <= i < |vs| && vs[i].key == k) <==> k in Keys(vs)
    {
      assert forall i :: 0 <= i < |vs| ==> Keys(vs)[i] == vs[i].key;
    }
  }

  lemma TabulatesExists(refs: map<Str, seq<nat>>)
    ensures exists vs :: Tabulates(vs, refs)
  {
    hide LexLeq;
    var l := RisingExists(set k | k in refs && refs[k] != []);
    assert forall i :: 0 <= i < |l| ==> l[i] in refs && refs[l[i]] != [] by {
      assert forall i :: 0 <= i < |l| ==> l[i] in l;
    }
    var vs := seq(|l|, i requires 0 <= i < |l| => Value(l[i], if l[i] in refs then refs[l[i]] else []));
    assert Keys(vs) == l;
    assert Tabulates(vs, refs);
  }

  // The table to be written for a macro.
  ghost function Tabulated(refs: map<Str, seq<nat>>): (vs: seq<Value>)
    ensures Tabulates(vs, refs)
  {
    TabulatesExists(refs);
    var vs :| Tabulates(vs, refs);
    vs
  }

  // Does the value occur in any page of the file?
  method InUse(e: MacroEntry, ghost at: map<Page, nat>) returns (use: bool)
    requires Positioned(at) && forall p :: p in e.pages ==> p in at
    ensures use <==> Refs(e.pages, at) != []
  {
    use := false;
    for i := 0 to |e.pages|
      invariant use <==> Refs(e.pages[..i], at) != []
    {
      assert e.pages[..i + 1][..i] == e.pages[..i];
      if e.pages[i].pos != 0 {
        use := true;
      }
    }
    assert e.pages[..|e.pages|] == e.pages;
  }

  // These are different entries of the macro, all of them in use.
  ghost predicate Selected(es: seq<MacroEntry>, m: map<Str, MacroEntry>, refs: map<Str, seq<nat>>) {
    && (forall i :: 0 <= i < |es| ==>
          es[i].value in m && m[es[i].value] == es[i] && es[i].value in refs && refs[es[i].value] != [])
    && (forall i, j :: 0 <= i < j < |es| ==> es[i] != es[j])
  }

  // The entries of a macro, each of them once.
  ghost predicate Lists(all: seq<MacroEntry>, m: map<Str, MacroEntry>) {
    && (forall x :: 0 <= x < |all| ==> all[x].value in m && m[all[x].value] == all[x])
    && (forall x, y :: 0 <= x < y < |all| ==> all[x] != all[y])
    && (forall k :: k in m ==> m[k] in all && m[k].value == k)
  }

  lemma ListsAll(macro: MacroTable)
    requires TableOk(macro)
    ensures Lists(Listing(macro.t[..], 0), macro.m) && |Listing(macro.t[..], 0)| == |macro.m|
  {
    hide Ohash.Valid, Listing;
    macro.EnumeratesOnce();
    var all := Listing(macro.t[..], 0);
    forall x | 0 <= x < |all|
      ensures all[x].value in macro.m && macro.m[all[x].value] == all[x] && all[x].value == macro.keyOf(all[x])
    {
      assert macro.m[macro.keyOf(all[x])] == all[x];
    }
  }

  // es are those of the first k entries that are in use, idx their indices.
  ghost predicate Picked(es: seq<MacroEntry>, idx: seq<nat>, all: seq<MacroEntry>, refs: map<Str, seq<nat>>, k: nat) {
    && |idx| == |es| && k <= |all|
    && (forall i :: 0 <= i < |es| ==>
          idx[i] < k && es[i] == all[idx[i]] && es[i].value in refs && refs[es[i].value] != [])
    && (forall i, j :: 0 <= i < j < |idx| ==> idx[i] < idx[j])
    && (forall x :: 0 <= x < k && all[x].value in refs && refs[all[x].value] != [] ==> x in idx)
  }

  lemma PickedSelected(es: seq<MacroEntry>, idx: seq<nat>, all: seq<MacroEntry>, m: map<Str, MacroEntry>,
                       refs: map<Str, seq<nat>>)
    requires Picked(es, idx, all, refs, |all|) && Lists(all, m) && refs.Keys == m.Keys
    ensures Selected(es, m, refs)
    ensures forall k :: k in refs && refs[k] != [] ==> k in m && m[k] in es
  {
    forall k | k in refs && refs[k] != []
      ensures k in m && m[k] in es
    {
      var x :| 0 <= x < |all| && all[x] == m[k];
      var i :| 0 <= i < |idx| && idx[i] == x;
      assert es[i] == m[k];
    }
  }

  // Build a list of the non-empty entries.
  method Collect(macro: MacroTable, ghost refs: map<Str, seq<nat>>, ghost at: map<Page,
      nat>) returns (es: seq<MacroEntry>)
    requires TableOk(macro) && Positioned(at) && Describes(refs, macro.m, at)
    ensures Selected(es, macro.m, refs) && |es| <= |macro.m|
    ensures forall k :: k in refs && refs[k] != [] ==> k in macro.m && macro.m[k] in es
  {
    hide Ohash.Valid, Listing, Refs, Positioned, Enumerating, Lists, Selected, Picked, Describes;
    es := [];
    ghost var all, idx: seq<nat>, k: nat := Listing(macro.t[..], 0), [], 0;
    ListsAll(macro);
    PickedNone(all, refs);
    var entry: Option<MacroEntry>, slot: nat := FirstEntry(macro);
    while entry.Some?
      invariant k <= |all| && Enumerating(macro, all, k, slot)
      invariant entry == if k < |all| then Some(all[k]) else None
      invariant |es| <= k && Picked(es, idx, all, refs, k)
      decreases |all| - k
    {
      ListedEntry(all, macro.m, refs, at, k);
      PickedNext(es, idx, all, refs, k);
      var use := InUse(entry.value, at);
      if use {
        es, idx := es + [entry.value], idx + [k];
      }
      entry, slot := NextEntry(macro, slot, all, k);
      k := k + 1;
    }
    assert refs.Keys == macro.m.Keys by {
      SameKeys(refs, macro.m, at);
    }
    PickedSelected(es, idx, all, macro.m, refs);
  }

  lemma SameKeys(refs: map<Str, seq<nat>>, m: map<Str, MacroEntry>, at: map<Page, nat>)
    requires Describes(refs, m, at)
    ensures refs.Keys == m.Keys
  {
  }

  lemma PickedNone(all: seq<MacroEntry>, refs: map<Str, seq<nat>>)
    ensures Picked([], [], all, refs, 0)
  {
  }

  lemma PickedNext(es: seq<MacroEntry>, idx: seq<nat>, all: seq<MacroEntry>, refs: map<Str, seq<nat>>, k: nat)
    requires Picked(es, idx, all, refs, k) && k < |all|
    ensures
      if all[k].value in refs && refs[all[k].value] != [] then Picked(es + [all[k]], idx + [k], all, refs, k + 1)
      else Picked(es, idx, all, refs, k + 1)
  {
  }

  lemma ListedEntry(all: seq<MacroEntry>, m: map<Str, MacroEntry>, refs: map<Str, seq<nat>>, at: map<Page, nat>, k: nat)
    requires Lists(all, m) && k < |all| && Describes(refs, m, at)
    ensures forall p :: p in all[k].pages ==> p in at
    ensures all[k].value in refs && refs[all[k].value] == Refs(all[k].pages, at)
    ensures refs.Keys == m.Keys
  {
    assert m[all[k].value] == all[k];
  }

  /*** sorting ***********************************************************/

  lemma {:induction false} DifferentOnce<T>(s: seq<T>)
    requires forall i, j :: 0 <= i < j < |s| ==> s[i] != s[j]
    ensures forall x :: x in multiset(s) ==> multiset(s)[x] == 1
  {
    if s != [] {
      var n := |s| - 1;
      DifferentOnce(s[..n]);
      assert s == s[..n] + [s[n]];
      assert s[n] !in multiset(s[..n]);
    }
  }

  lemma OnceDifferent<T>(s: seq<T>, i: nat, j: nat)
    requires i < j < |s| && forall x :: x in multiset(s) ==> multiset(s)[x] == 1
    ensures s[i] != s[j]
  {
    assert s == s[..j] + s[j..];
    assert s[j] in s[j..] && s[i] in s[..j];
    assert multiset(s)[s[j]] == multiset(s[..j])[s[j]] + multiset(s[j..])[s[j]];
  }

  // Sort the entries by their values.
  method SortEntries(es: seq<MacroEntry>, ghost m: map<Str, MacroEntry>, ghost refs: map<Str, seq<nat>>)
    returns (r: seq<MacroEntry>)
    requires Selected(es, m, refs)
    ensures Selected(r, m, refs) && |r| == |es|
    ensures forall e :: e in es ==> e in r
    ensures forall i, j :: 0 <= i < j < |r| ==> LexLeq(r[i].value, r[j].value)
  {
    var leq := (a: MacroEntry, b: MacroEntry) => LexLeq(a.value, b.value);
    forall x, y | x in es && y in es
      ensures leq(x, y) || leq(y, x)
    {
      LexTotal(x.value, y.value);
    }
    forall x, y, z | x in es && y in es && z in es && leq(x, y) && leq(y, z)
      ensures leq(x, z)
    {
      LexTransitive(x.value, y.value, z.value);
    }
    r := Sort(es, leq);
    SameElements(r, es);
    DifferentOnce(es);
    forall i, j | 0 <= i < j < |r|
      ensures r[i] != r[j]
    {
      OnceDifferent(r, i, j);
    }
    forall i | 0 <= i < |r|
      ensures r[i].value in m && m[r[i].value] == r[i] && r[i].value in refs && refs[r[i].value] != []
    {
      assert r[i] in es;
    }
  }

  /*** writing *************************************************************/

  // The values to write for these entries.
  ghost function Values(es: seq<MacroEntry>, refs: map<Str, seq<nat>>): (vs: seq<Value>)
    ensures |vs| == |es|
    ensures forall i :: 0 <= i < |es| ==>
              vs[i].key == es[i].value && (es[i].value in refs ==> vs[i].refs == refs[es[i].value])
  {
    seq(|es|, i requires 0 <= i < |es| => Value(es[i].value, if es[i].value in refs then refs[es[i].value] else []))
  }

  // Write the values, and note where each one starts.
  method WriteKeys(st: Stream, es: seq<MacroEntry>, ghost keys: seq<Str>) returns (r: Option<seq<nat>>)
    requires st.Valid() && st.pos == |st.buf|
    requires |keys| == |es| && forall i :: 0 <= i < |es| ==> es[i].value == keys[i] && NoNul(keys[i])
    modifies st
    ensures st.Valid()
    ensures r.None? ==> |st.buf| >= INT32_MAX && old(|st.buf|) + |Flatten(StrItems(keys))| >= INT32_MAX
    ensures r.Some? ==>
              && st.pos == |st.buf| && st.buf == old(st.buf) + Flatten(StrItems(keys))
              && |r.value| == |es|
              && forall i :: 0 <= i < |es| ==> r.value[i] == old(|st.buf|) + Offset(StrItems(keys), i) < INT32_MAX
  {
    hide Flatten, Offset, Put;
    var kpos: seq<nat> := [];
    ghost var b, items := st.buf, StrItems(keys);
    OffsetStart(items);
    for i := 0 to |es|
      invariant st.Valid() && st.pos == |st.buf| && st.buf == b + Flatten(items[..i])
      invariant |kpos| == i
      invariant forall j :: 0 <= j < i ==> kpos[j] == |b| + Offset(items, j) < INT32_MAX
    {
      FlattenSplit(items, i);
      OffsetNext(items, i);
      var p :- st.Tell();
      kpos := kpos + [p];
      ConcatAssociative(b, Flatten(items[..i]), items[i]);
      PutAppends(st.buf, items[i]);
      st.StrWrite(es[i].value);
    }
    assert items[..|es|] == items;
    r := Some(kpos);
  }

  // Write the positions of the pages of one entry that are in the file.
  method WriteRefs(st: Stream, ps: seq<Page>, ghost at: map<Page, nat>)
    requires st.Valid() && st.pos == |st.buf|
    requires Positioned(at) && forall p :: p in ps ==> p in at
    modifies st
    ensures st.Valid() && st.pos == |st.buf|
    ensures st.buf == old(st.buf) + Ints(Refs(ps, at) + [0])
  {
    hide Put, Ints;
    ghost var b := st.buf;
    PutNothing(b, 0);
    assert Ints([]) == [] by { IntsNone(); }
    for i := 0 to |ps|
      invariant st.Valid() && st.pos == |st.buf| && st.buf == b + Ints(Refs(ps[..i], at))
    {
      assert ps[..i + 1][..i] == ps[..i] && ps[..i + 1][i] == ps[i] && ps[i] in at;
      var addr := ps[i].pos;
      if addr != 0 {
        IntsSnoc(Refs(ps[..i], at), addr);
        ConcatAssociative(b, Ints(Refs(ps[..i], at)), IntBytes(addr));
        PutAppends(st.buf, IntBytes(addr));
        st.IntWrite(addr);
      }
    }
    assert ps[..|ps|] == ps;
    IntsSnoc(Refs(ps, at), 0);
    ConcatAssociative(b, Ints(Refs(ps, at)), IntBytes(0));
    PutAppends(st.buf, IntBytes(0));
    st.IntWrite(0);
  }

  lemma IntsNone()
    ensures Ints([]) == []
  {
  }

  // Write the page lists, and note where each one starts.
  method WriteLists(st: Stream, es: seq<MacroEntry>, ghost vs: seq<Value>, ghost at: map<Page,
      nat>) returns (r: Option<seq<nat>>)
    requires st.Valid() && st.pos == |st.buf| && |vs| == |es| && Positioned(at)
    requires forall i :: 0 <= i < |es| ==>
               (forall p :: p in es[i].pages ==> p in at) && vs[i].refs == Refs(es[i].pages, at)
    modifies st
    ensures st.Valid()
    ensures r.None? ==> |st.buf| >= INT32_MAX && old(|st.buf|) + |Flatten(PageLists(vs))| >= INT32_MAX
    ensures r.Some? ==>
              && st.pos == |st.buf| && st.buf == old(st.buf) + Flatten(PageLists(vs))
              && |r.value| == |es|
              && forall i :: 0 <= i < |es| ==> r.value[i] == old(|st.buf|) + Offset(PageLists(vs), i) < INT32_MAX
  {
    hide Flatten, Offset, Put, Refs, Ints;
    var dpos: seq<nat> := [];
    ghost var b, items := st.buf, PageLists(vs);
    OffsetStart(items);
    for i := 0 to |es|
      invariant st.Valid() && st.pos == |st.buf| && st.buf == b + Flatten(items[..i])
      invariant |dpos| == i
      invariant forall j :: 0 <= j < i ==> dpos[j] == |b| + Offset(items, j) < INT32_MAX
    {
      FlattenSplit(items, i);
      OffsetNext(items, i);
      var p :- st.Tell();
      dpos := dpos + [p];
      ConcatAssociative(b, Flatten(items[..i]), items[i]);
      WriteRefs(st, es[i].pages, at);
    }
    assert items[..|es|] == items;
    r := Some(dpos);
  }

  // Pairs of integers.
  ghost function Pairs(ks: seq<nat>, ds: seq<nat>, n: nat): (b: Str)
    requires n <= |ks| && n <= |ds|
    ensures |b| == 8 * n
  {
    if n == 0 then [] else Pairs(ks, ds, n - 1) + Ints([ks[n - 1], ds[n - 1]])
  }

  // Fill in the pointer pairs.
  method FillPairs(st: Stream, kpos: seq<nat>, dpos: seq<nat>, ghost pre: Str, ghost post: Str)
    requires st.Valid() && |kpos| == |dpos| && st.pos == |pre|
    requires st.buf == pre + Zeros(8 * |kpos|) + post
    requires forall i :: 0 <= i < |kpos| ==> kpos[i] <= INT32_MAX && dpos[i] <= INT32_MAX
    modifies st
    ensures st.Valid() && st.buf == pre + Pairs(kpos, dpos, |kpos|) + post
  {
    hide Put, Ints;
    var n := |kpos|;
    assert pre + Pairs(kpos, dpos, 0) == pre;
    for i := 0 to n
      invariant st.Valid() && st.pos == |pre| + 8 * i
      invariant st.buf == pre + Pairs(kpos, dpos, i) + Zeros(8 * (n - i)) + post
    {
      ghost var b0 := st.buf;
      st.IntWrite(kpos[i]);
      st.IntWrite(dpos[i]);
      PairFits(b0, pre, kpos, dpos, i, post);
    }
    assert pre + Pairs(kpos, dpos, n) + Zeros(0) + post == pre + Pairs(kpos, dpos, n) + post;
  }

  lemma PairFits(b0: Str, pre: Str, ks: seq<nat>, ds: seq<nat>, i: nat, post: Str)
    requires i < |ks| == |ds|
    requires b0 == pre + Pairs(ks, ds, i) + Zeros(8 * (|ks| - i)) + post
    ensures |pre| + 8 * i + 8 <= |b0|
    ensures Put(Put(b0, |pre| + 8 * i, IntBytes(ks[i])), |pre| + 8 * i + 4, IntBytes(ds[i]))
         == pre + Pairs(ks, ds, i + 1) + Zeros(8 * (|ks| - i - 1)) + post
  {
    hide Put, Ints, IntBytes;
    var p, k, d := pre + Pairs(ks, ds, i), IntBytes(ks[i]), IntBytes(ds[i]);
    var m := 8 * (|ks| - i);
    PutTwice(b0, |p|, k, d);
    assert Zeros(m) == Zeros(8) + Zeros(m - 8);
    assert b0 == p + Zeros(8) + (Zeros(m - 8) + post);
    PutReplaces(p, Zeros(8), Zeros(m - 8) + post, k + d);
    IntsNone();
    IntsSnoc([], ks[i]);
    IntsSnoc([ks[i]], ds[i]);
    assert [] + [ks[i]] == [ks[i]] && [ks[i]] + [ds[i]] == [ks[i], ds[i]];
    assert [] + k == k;
    ConcatAssociative(pre, Pairs(ks, ds, i), k + d);
  }

  lemma {:induction false} PairsAre(vs: seq<Value>, o: nat, ks: seq<nat>, ds: seq<nat>, n: nat)
    requires n <= |vs| == |ks| == |ds|
    requires forall i :: 0 <= i < |vs| ==> ks[i] == KeyPos(vs, o, i) && ds[i] == ListPos(vs, o, i)
    ensures Pairs(ks, ds, n) == Flatten(PairItems(vs, o)[..n])
  {
    hide Ints, KeyPos, ListPos;
    if n > 0 {
      PairsAre(vs, o, ks, ds, n - 1);
      OffsetNext(PairItems(vs, o), n - 1);
    }
  }

  // The part of a macro table after the pointer pairs.
  ghost function AfterPairs(vs: seq<Value>, o: nat): Str {
    Flatten(StrItems(Keys(vs))) + Zeros(PadLen(KeysEnd(vs, o))) + Flatten(PageLists(vs))
  }

  // These are the pointers of a table at offset o.
  ghost predicate Pointing(kpos: seq<nat>, dpos: seq<nat>, vs: seq<Value>, o: nat) {
    && |kpos| == |dpos| == |vs|
    && forall i :: 0 <= i < |vs| ==>
         kpos[i] == KeyPos(vs, o, i) && dpos[i] == ListPos(vs, o, i) && kpos[i] <= INT32_MAX && dpos[i] <= INT32_MAX
  }

  // Write the string table and the pages table of one macro.
  method WriteItems(st: Stream, es: seq<MacroEntry>, ghost vs: seq<Value>, ghost o: nat, ghost at: map<Page, nat>)
    returns (r: Option<(seq<nat>, seq<nat>)>)
    requires st.Valid() && st.pos == |st.buf| == o + 4 + 8 * |es| && |vs| == |es| && Positioned(at)
    requires forall i :: 0 <= i < |es| ==>
               && es[i].value == vs[i].key && NoNul(es[i].value)
               && (forall p :: p in es[i].pages ==> p in at) && vs[i].refs == Refs(es[i].pages, at)
    modifies st
    ensures st.Valid()
    ensures r.None? ==> |st.buf| >= INT32_MAX && old(|st.buf|) + |AfterPairs(vs, o)| >= INT32_MAX
    ensures r.Some? ==>
              && st.pos == |st.buf| && st.buf == old(st.buf) + AfterPairs(vs, o)
              && Pointing(r.value.0, r.value.1, vs, o)
  {
    hide Refs, Put, Flatten, Offset, Ints;
    ghost var b := st.buf;
    ghost var ks := Flatten(StrItems(Keys(vs)));
    var kpos :- WriteKeys(st, es, Keys(vs));
    assert st.pos == KeysEnd(vs, o);
    PutAppends(st.buf, Zeros(PadLen(st.pos)));
    var _ :- st.Align();
    ghost var b1 := st.buf;
    var dpos :- WriteLists(st, es, vs, at);
    ConcatAssociative(b, ks, Zeros(PadLen(KeysEnd(vs, o))));
    ConcatAssociative(b, ks + Zeros(PadLen(KeysEnd(vs, o))), Flatten(PageLists(vs)));
    r := Some((kpos, dpos));
  }

  // Write the table of one macro at the end of the file.  The program gives
  // up exactly if its end does not fit into 32 bits.
  method WriteMacro(st: Stream, macro: MacroTable, ghost refs: map<Str, seq<nat>>, ghost at: map<Page, nat>)
    returns (r: Option<()>)
    requires st.Valid() && st.pos == |st.buf|
    requires TableOk(macro) && Positioned(at) && Describes(refs, macro.m, at)
    modifies st
    ensures st.Valid()
    ensures r.None? ==> |st.buf| >= INT32_MAX
    ensures r.Some? <==> old(|st.buf|) + |TableBytes(Tabulated(refs), old(|st.buf|))| < INT32_MAX
    ensures r.Some? ==>
              st.pos == |st.buf| && st.buf == old(st.buf) + TableBytes(Tabulated(refs), old(|st.buf|))
  {
    hide Ohash.Valid, Refs, Selected, Put, Pairs, Ints, IntBytes, Tabulates, AfterPairs, TableBytes, Pointing;
    hide Describes, Tabulated, Flatten, PairItems, EntryKey, Refs, TableOk, Positioned, PadLen, Zeros;
    ghost var b, vs := st.buf, Tabulated(refs);
    TableSmall(macro);
    var es := Collect(macro, refs, at);
    es := SortEntries(es, macro.m, refs);
    SelectedValues(es, macro.m, refs, at);
    TabulatesUnique(Values(es, refs), vs, refs);
    TableComplete(b, vs);
    TableLength(vs, |b|);
    var ne := |es|;
    PutAppends(st.buf, IntBytes(ne));
    st.IntWrite(ne);
    PutAppends(st.buf, Zeros(8 * ne));
    var posMacro :- st.Skip(2, ne);
    var items :- WriteItems(st, es, vs, |b|, at);
    var posEnd :- st.Tell();
    st.Seek(posMacro);
    ghost var pre, post := b + IntBytes(ne), AfterPairs(vs, |b|);
    PairsComplete(vs, |b|, items.0, items.1);
    FillPairs(st, items.0, items.1, pre, post);
    st.Seek(posEnd);
    r := Some(());
  }

  lemma TableSmall(macro: MacroTable)
    requires TableOk(macro)
    ensures |macro.m| <= INT32_MAX
    ensures forall k :: k in macro.m ==> macro.m[k].value == k && k != [] && NoNul(k)
  {
  }

  lemma PairsComplete(vs: seq<Value>, o: nat, kpos: seq<nat>, dpos: seq<nat>)
    requires Pointing(kpos, dpos, vs, o)
    ensures |kpos| == |dpos| == |vs|
    ensures forall i :: 0 <= i < |kpos| ==> kpos[i] <= INT32_MAX && dpos[i] <= INT32_MAX
    ensures Pairs(kpos, dpos, |vs|) == Flatten(PairItems(vs, o))
  {
    PairsAre(vs, o, kpos, dpos, |vs|);
    assert PairItems(vs, o)[..|vs|] == PairItems(vs, o);
  }

  lemma TableComplete(b: Str, vs: seq<Value>)
    ensures b + IntBytes(|vs|) + Flatten(PairItems(vs, |b|)) + AfterPairs(vs, |b|) == b + TableBytes(vs, |b|)
  {
    hide Flatten, PairItems, StrItems, Keys, PageLists, KeysEnd;
  }

  lemma TableLength(vs: seq<Value>, o: nat)
    ensures |TableBytes(vs, o)| == 4 + 8 * |vs| + |AfterPairs(vs, o)|
  {
    FlattenLength(PairItems(vs, o), 8);
    hide Flatten, PairItems, StrItems, Keys, PageLists, KeysEnd;
  }

  lemma SelectedValues(es: seq<MacroEntry>, m: map<Str, MacroEntry>, refs: map<Str, seq<nat>>, at: map<Page, nat>)
    requires Selected(es, m, refs) && Describes(refs, m, at)
    requires forall i, j :: 0 <= i < j < |es| ==> LexLeq(es[i].value, es[j].value)
    requires forall k :: k in refs && refs[k] != [] ==> k in m && m[k] in es
    requires forall k :: k in m ==> m[k].value == k && k != [] && NoNul(k)
    ensures Tabulates(Values(es, refs), refs)
    ensures forall i :: 0 <= i < |es| ==>
              && NoNul(es[i].value) && (forall p :: p in es[i].pages ==> p in at)
              && Values(es, refs)[i].refs == Refs(es[i].pages, at)
  {
    hide LexLeq, Refs;
    var vs := Values(es, refs);
    forall k | k in refs && refs[k] != []
      ensures k in Keys(vs)
    {
      var i :| 0 <= i < |es| && es[i] == m[k];
      assert Keys(vs)[i] == k;
    }
  }
}
