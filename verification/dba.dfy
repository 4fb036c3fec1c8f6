// The database in memory, and writing it to disk: userland/mandoc/dba.c.
module DbaFile {
  import opened Bytes
  import opened DbaArrays
  import opened DbaMacros
  import opened DbaPages
  import opened DbaWrite
  import opened Layout
  import opened Options
  import opened OpenHash
  import opened Sizes

  type RefMap = map<Str, seq<nat>>

  // All macro tables are usable, and refs are the page references in them.
  ghost predicate MacrosOk(tables: seq<MacroTable>, refs: seq<RefMap>, at: map<Page, nat>)
    reads tables, set i | 0 <= i < |tables| :: tables[i].t, set i, e | 0 <= i < |tables| && e in tables[i].m.Values :: e
  {
    && |refs| == |tables|
    && forall i {:trigger tables[i]} {:trigger refs[i]} :: 0 <= i < |tables| ==>
         TableOk(tables[i]) && Describes(refs[i], tables[i].m, at)
  }

  // The tables to be written.
  ghost function TabulatedAll(refs: seq<RefMap>): (ms: seq<seq<Value>>)
    ensures |ms| == |refs| && forall i :: 0 <= i < |ms| ==> ms[i] == Tabulated(refs[i])
  {
    seq(|refs|, i requires 0 <= i < |refs| => Tabulated(refs[i]))
  }

  // The first k tables have been written from offset o on, at positions em.
  ghost predicate TablesLaid(ms: seq<seq<Value>>, em: seq<int>, o: nat, k: nat) {
    && k <= |ms| == |em|
    && (forall i :: 0 <= i < |em| ==> 0 <= em[i] <= INT32_MAX)
    && (forall i :: 0 <= i < k ==> em[i] == o + |Tables(ms, o, i)|)
  }

  lemma TablesLaidNext(ms: seq<seq<Value>>, em: seq<int>, o: nat, k: nat, p: nat)
    requires TablesLaid(ms, em, o, k) && k < |ms|
    requires p == o + |Tables(ms, o, k)| <= INT32_MAX
    ensures TablesLaid(ms, em[k := p], o, k + 1)
  {
    hide Tables;
  }

  // Note where the table of macro im starts, and write it.
  method WriteTable(st: Stream, macros: DbaArray<MacroTable>, im: nat, ghost refs: seq<RefMap>, ghost at: map<Page,
      nat>)
    returns (r: Option<()>)
    requires st.Valid() && st.pos == |st.buf| && macros.Valid() && st != (macros as object)
    requires im < |macros.ep| && macros.em[im] != -1
    requires Positioned(at) && MacrosOk(macros.ep, refs, at)
    modifies st, macros`em
    ensures st.Valid() && im < |refs|
    ensures r.None? ==> |st.buf| >= INT32_MAX
    ensures r.Some? <==> old(|st.buf|) + |TableBytes(Tabulated(refs[im]), old(|st.buf|))| < INT32_MAX
    ensures r.Some? ==>
              && macros.Valid() && MacrosOk(macros.ep, refs, at)
              && macros.em == old(macros.em)[im := old(|st.buf|)] && old(|st.buf|) <= INT32_MAX
              && st.pos == |st.buf| && st.buf == old(st.buf) + TableBytes(Tabulated(refs[im]), old(|st.buf|))
  {
    hide TableBytes, Tabulates, LiveFrom, TableOk, Describes, Positioned, Tabulated;
    var p :- st.Tell();
    macros.SetPos(im, p);
    ghost var tables := macros.ep;
    r := WriteMacro(st, macros.ep[im], refs[im], at);
    forall i | 0 <= i < |tables|
      ensures TableOk(tables[i]) && Describes(refs[i], tables[i].m, at)
    {
    }
  }

  // Write the macros table at the end of the file.  The program gives up
  // exactly if its end does not fit into 32 bits.
  method WriteMacros(st: Stream, macros: DbaArray<MacroTable>, ghost refs: seq<RefMap>, ghost at: map<Page, nat>)
    returns (r: Option<()>)
    requires st.Valid() && st.pos == |st.buf| && macros.Valid() && st != (macros as object)
    requires |macros.ep| == MACRO_MAX && (forall i :: 0 <= i < MACRO_MAX ==> 0 <= macros.em[i] <= INT32_MAX)
    requires Positioned(at) && MacrosOk(macros.ep, refs, at)
    modifies st, macros`em, macros`pos
    ensures st.Valid() && |refs| == MACRO_MAX
    ensures r.None? ==> |st.buf| >= INT32_MAX
    ensures r.Some? <==> old(|st.buf|) + |MacrosBytes(TabulatedAll(refs), old(|st.buf|))| < INT32_MAX
    ensures r.Some? ==>
              st.pos == |st.buf| && st.buf == old(st.buf) + MacrosBytes(TabulatedAll(refs), old(|st.buf|))
  {
    hide TableBytes, Put, LiveFrom, Ints, MacrosOk, TablesLaid, Tables, MacrosBytes, PositionsFrom;
    ghost var b, ms := st.buf, TabulatedAll(refs);
    ghost var o := |b| + 4 + 4 * MACRO_MAX;
    ghost var pre := b + IntBytes(MACRO_MAX) + Zeros(4 * MACRO_MAX);
    MacrosCount(macros.ep, refs, at);
    TablesStart(ms, macros.em, o, pre);
    AllLive(macros.em);
    PutAppends(b, IntBytes(MACRO_MAX) + Zeros(4 * MACRO_MAX));
    ConcatAssociative(b, IntBytes(MACRO_MAX), Zeros(4 * MACRO_MAX));
    MacrosSize(ms, |b|, 0);
    var posMacros :- macros.WriteLen(st, 1);
    for im := 0 to MACRO_MAX
      invariant st.Valid() && st.pos == |st.buf| && macros.Valid()
      invariant |macros.em| == MACRO_MAX && macros.em[im..] == old(macros.em[im..])
      invariant MacrosOk(macros.ep, refs, at)
      invariant TablesLaid(ms, macros.em, o, im) && st.buf == pre + Tables(ms, o, im)
    {
      ghost var p, em := |st.buf|, macros.em;
      MacrosSize(ms, |b|, im);
      TablesGrow(ms, o, im, im);
      r := WriteTable(st, macros, im, refs, at);
      if r.None? {
        return;
      }
      TablesLaidNext(ms, em, o, im, p);
      ConcatAssociative(pre, Tables(ms, o, im), TableBytes(ms[im], p));
    }
    MacrosSize(ms, |b|, MACRO_MAX);
    var posEnd :- st.Tell();
    TablesDone(b, ms, macros.em);
    st.Seek(posMacros);
    var p := macros.WritePos(st);
    if p.None? {
      assert false;
      return None;
    }
    st.Seek(posEnd);
    r := Some(());
  }

  lemma MacrosCount(tables: seq<MacroTable>, refs: seq<RefMap>, at: map<Page, nat>)
    requires MacrosOk(tables, refs, at)
    ensures |refs| == |tables|
  {
  }

  lemma TablesStart(ms: seq<seq<Value>>, em: seq<int>, o: nat, pre: Str)
    requires |ms| == |em| && forall i :: 0 <= i < |em| ==> 0 <= em[i] <= INT32_MAX
    ensures TablesLaid(ms, em, o, 0) && pre + Tables(ms, o, 0) == pre
  {
  }

  lemma TablesDone(b: Str, ms: seq<seq<Value>>, em: seq<int>)
    requires TablesLaid(ms, em, |b| + 4 + 4 * |ms|, |ms|)
    ensures forall i :: 0 <= i < |em| ==> 0 <= em[i] <= INT32_MAX
    ensures
      var buf := b + IntBytes(|ms|) + Zeros(4 * |ms|) + Tables(ms, |b| + 4 + 4 * |ms|, |ms|);
      && |b| + 4 <= |buf| && |PositionsFrom(em, 0)| == |em|
      && Put(buf, |b| + 4, Ints(PositionsFrom(em, 0))) == b + MacrosBytes(ms, |b|)
      && |buf| == |b + MacrosBytes(ms, |b|)|
  {
    hide TableBytes, Put, MacrosBytes, Tables;
    PositionsFill(b, ms, em);
  }

  lemma AllLive(em: seq<int>)
    requires forall i :: 0 <= i < |em| ==> 0 <= em[i]
    ensures |LiveFrom(em, 0)| == |em|
  {
    NothingDeleted(em, 0);
  }

  lemma PositionsFill(b: Str, ms: seq<seq<Value>>, em: seq<int>)
    requires |em| == |ms| && forall i :: 0 <= i < |em| ==> 0 <= em[i]
    requires forall i :: 0 <= i < |em| ==> em[i] == MacroPos(ms, |b|, i)
    ensures
      var buf := b + IntBytes(|ms|) + Zeros(4 * |ms|) + Tables(ms, |b| + 4 + 4 * |ms|, |ms|);
      && |b| + 4 <= |buf| && PositionsFrom(em, 0) == em
      && Put(buf, |b| + 4, Ints(em)) == b + MacrosBytes(ms, |b|)
  {
    hide Put, Tables, TableBytes, Ints;
    NothingDeleted(em, 0);
    var t := Tables(ms, |b| + 4 + 4 * |ms|, |ms|);
    var pre := b + IntBytes(|ms|);
    assert em == MacroPositions(ms, |b|);
    PutReplaces(pre, Zeros(4 * |ms|), t, Ints(em));
    assert b + MacrosBytes(ms, |b|) == pre + Ints(em) + t;
  }

  /*** the whole file *****************************************************/

  // at gives the position of each page record: the live pages lv of the
  // table tbl are in the file one after the other, the others are not.
  ghost predicate AtRecords(at: map<Page, nat>, lv: seq<Page>, tbl: seq<Page>) {
    && at.Keys == (set p | p in tbl)
    && (forall i :: 0 <= i < |lv| ==> lv[i] in at && at[lv[i]] == PageAddr(i))
    && (forall p :: p in at && p !in lv ==> at[p] == 0)
  }

  // The positions that the records of the live pages lv of the table tbl get.
  ghost function RecordsAt(lv: seq<Page>, tbl: seq<Page>): map<Page, nat> {
    map p | p in tbl :: if p in lv then var i :| 0 <= i < |lv| && lv[i] == p; PageAddr(i) else 0
  }

  lemma RecordsAre(at: map<Page, nat>, lv: seq<Page>, tbl: seq<Page>)
    requires AtRecords(at, lv, tbl)
    ensures at == RecordsAt(lv, tbl)
  {
  }

  // The pages listed for each value of a macro.
  type Content = map<Str, seq<Page>>

  ghost predicate Holds(m: map<Str, MacroEntry>, c: Content)
    reads m.Values
  {
    && m.Keys == c.Keys
    && forall k {:trigger m[k]} {:trigger c[k]} :: k in m ==> m[k] in m.Values && m[k].pages == c[k]
  }

  // All macro tables are usable, have these contents, and refer to pages of
  // this database only.
  ghost predicate TablesOk(tables: seq<MacroTable>, cs: seq<Content>, tbl: seq<Page>)
    reads tables, set i | 0 <= i < |tables| :: tables[i].t, set i, e | 0 <= i < |tables| && e in tables[i].m.Values :: e
  {
    && |cs| == |tables|
    && (forall i {:trigger tables[i]} {:trigger cs[i]} :: 0 <= i < |tables| ==>
       TableOk(tables[i]) && Holds(tables[i].m, cs[i]))
    && (forall i, k, p :: 0 <= i < |cs| && k in cs[i] && p in cs[i][k] ==> p in tbl)
  }

  // What dba_write() expects; no page has a position before writing.
  ghost predicate Writable(pages: DbaArray<Page>, macros: DbaArray<MacroTable>, cs: seq<Content>)
    reads pages, pages.ep, macros, macros.ep
    reads set i | 0 <= i < |macros.ep| :: macros.ep[i].t
    reads set i, e | 0 <= i < |macros.ep| && e in macros.ep[i].m.Values :: e
  {
    && PagesOk(pages) && |pages.ep| <= INT32_MAX && (forall p :: p in pages.ep ==> p.pos == 0)
    && macros.Valid() && |macros.ep| == MACRO_MAX && (forall i :: 0 <= i < MACRO_MAX ==> 0 <= macros.em[i] <= INT32_MAX)
    && |cs| == MACRO_MAX && TablesOk(macros.ep, cs, pages.ep)
  }

  // The page references of each value.
  ghost function RefMapOf(c: Content, at: map<Page, nat>): (refs: RefMap)
    ensures refs.Keys == c.Keys
    ensures forall k {:trigger c[k]} {:trigger refs[k]} :: k in c ==> refs[k] == Refs(c[k], at)
  {
    map k | k in c :: Refs(c[k], at)
  }

  ghost function RefMaps(cs: seq<Content>, at: map<Page, nat>): (refs: seq<RefMap>)
    ensures |refs| == |cs|
    ensures forall i {:trigger cs[i]} {:trigger refs[i]} :: 0 <= i < |cs| ==> refs[i] == RefMapOf(cs[i], at)
  {
    seq(|cs|, i requires 0 <= i < |cs| => RefMapOf(cs[i], at))
  }

  // The tables to be written for these contents.
  ghost function MacroValues(cs: seq<Content>, lv: seq<Page>, tbl: seq<Page>): (ms: seq<seq<Value>>)
    ensures |ms| == |cs|
    ensures forall i :: 0 <= i < |ms| ==> Tabulates(ms[i], RefMapOf(cs[i], RecordsAt(lv, tbl)))
  {
    TabulatedAll(RefMaps(cs, RecordsAt(lv, tbl)))
  }

  lemma RefsDescribe(tables: seq<MacroTable>, cs: seq<Content>, tbl: seq<Page>, at: map<Page, nat>)
    requires TablesOk(tables, cs, tbl) && at.Keys == (set p | p in tbl)
    ensures MacrosOk(tables, RefMaps(cs, at), at)
  {
    forall i | 0 <= i < |tables|
      ensures Describes(RefMaps(cs, at)[i], tables[i].m, at)
    {
      assert Holds(tables[i].m, cs[i]);
    }
  }

  // The positions after writing the pages table.
  ghost function PositionsOf(tbl: seq<Page>): (at: map<Page, nat>)
    reads tbl
    ensures at.Keys == (set p | p in tbl)
    ensures forall p :: p in tbl ==> at[p] == p.pos
  {
    map p | p in tbl :: p.pos
  }

  // Write the magic and version numbers, leaving room for two pointers.
  method WriteHead(st: Stream) returns (r: Option<nat>)
    requires st.Valid() && st.buf == []
    modifies st
    ensures st.Valid()
    ensures r == Some(8) && st.pos == |st.buf| == 16 && st.buf == IntBytes(MAGIC) + IntBytes(VERSION) + Zeros(8)
  {
    hide Put, IntBytes;
    HeadWritten();
    st.IntWrite(MAGIC);
    st.IntWrite(VERSION);
    r := st.Skip(1, 2);
  }

  // Write the pages table behind the header, keeping the macro tables.
  method WriteFront(st: Stream, pages: DbaArray<Page>, ghost lv: seq<Page>, ghost rows0: seq<Row>,
      ghost ems0: seq<seq<int>>, ghost tables: seq<MacroTable>, ghost cs: seq<Content>)
    returns (r: Option<()>, ghost rows: seq<Row>, ghost ems: seq<seq<int>>, ghost at: map<Page, nat>)
    requires st.Valid() && st.pos == |st.buf| == 16
    requires PagesOk(pages) && |pages.ep| <= INT32_MAX && (forall p :: p in pages.ep ==> p.pos == 0)
    requires st != (pages as object) && Apart(pages.ep, st)
    requires lv == DbaArrays.Live(pages.ep, pages.em) && Snapshot(lv, rows0, ems0)
    requires TablesOk(tables, cs, pages.ep)
    modifies st, pages`ec, lv`ep, lv`em, lv`pos
    ensures st.Valid()
    ensures r.None? ==> |st.buf| >= INT32_MAX
    ensures Shaped(rows0) && (r.Some? <==> ColumnPos(rows0, 16, DBP_MAX) < INT32_MAX)
    ensures r.Some? ==>
              && Shaped(rows) && Snapshot(lv, rows, ems) && RowsSorted(rows, rows0)
              && st.buf == old(st.buf) + PagesBytes(rows, 16) && st.pos == |st.buf|
              && AtRecords(at, lv, pages.ep) && Positioned(at)
              && MacrosOk(tables, RefMaps(cs, at), at)
  {
    hide PagesBytes, RowsSorted, AtRecords, PageOk, Positioned, Refs, TableOk, Holds, MacrosOk, Shaped, LiveFrom;
    hide Snapshot, ColumnPos, Placed, RowOk, RowShape;
    ghost var tbl := pages.ep;
    at := map[];
    LivesDistinct(pages);
    r, rows, ems := WritePages(st, pages, lv, rows0, ems0);
    if r.None? {
      return;
    }
    at := PositionsOf(tbl);
    RecordsPlaced(pages, lv, at);
    assert MacrosOk(tables, RefMaps(cs, at), at) by {
      hide RowsSorted, PagesBytes, Apart, PagesOk, RefMaps;
      forall i | 0 <= i < |tables|
        ensures TableOk(tables[i]) && Holds(tables[i].m, cs[i])
      {
      }
      RefsDescribe(tables, cs, tbl, at);
    }
  }

  // Write the closing magic number, go back and fill in the header.
  method WriteEnd(st: Stream, posMacrosPtr: nat, posMacros: nat, posEnd: nat, ghost rows: seq<Row>,
      ghost ms: seq<seq<Value>>)
    requires st.Valid() && st.pos == |st.buf| && Shaped(rows)
    requires st.buf == IntBytes(MAGIC) + IntBytes(VERSION) + Zeros(8) + PagesBytes(rows, 16)
             + MacrosBytes(ms, MacrosPos(rows))
    requires posMacrosPtr == 8 && posMacros == MacrosPos(rows) <= INT32_MAX && posEnd == EndPos(rows, ms) <= INT32_MAX
    modifies st
    ensures st.Valid() && st.buf == FileBytes(rows, ms)
  {
    hide PagesBytes, MacrosBytes, FileBytes, Put, IntBytes;
    PutAppends(st.buf, IntBytes(MAGIC));
    st.IntWrite(MAGIC);
    FileComplete(st.buf, rows, ms);
    st.Seek(posMacrosPtr);
    st.IntWrite(posMacros);
    st.IntWrite(posEnd);
  }

  // Write the complete database to the new file st: FileBytes() of the live
  // pages and of the values occurring in them.  The program gives up exactly
  // if the position of the closing magic number does not fit into 32 bits.
  method Write(st: Stream, pages: DbaArray<Page>, macros: DbaArray<MacroTable>,
               ghost lv: seq<Page>, ghost rows0: seq<Row>, ghost ems0: seq<seq<int>>, ghost cs: seq<Content>)
    returns (r: Option<()>, ghost rows: seq<Row>, ghost ems: seq<seq<int>>)
    requires Writable(pages, macros, cs)
    requires st.Valid() && st.buf == [] && st != (pages as object) && st != (macros as object) && Apart(pages.ep, st)
    requires lv == DbaArrays.Live(pages.ep, pages.em) && Snapshot(lv, rows0, ems0)
    modifies st, pages`ec, lv`ep, lv`em, lv`pos, macros`em, macros`pos
    ensures r.None? ==> |st.buf| >= INT32_MAX
    ensures Shaped(rows0) && (r.Some? <==> EndPos(rows0, MacroValues(cs, lv, pages.ep)) < INT32_MAX)
    ensures r.Some? ==>
              && Shaped(rows) && Snapshot(lv, rows, ems) && RowsSorted(rows, rows0)
              && st.buf == FileBytes(rows, MacroValues(cs, lv, pages.ep))
              && var at := RecordsAt(lv, pages.ep);
              AtRecords(at, lv, pages.ep) && forall p :: p in at ==> at[p] <= INT32_MAX
  {
    hide PagesBytes, MacrosBytes, FileBytes, Put, IntBytes, Tabulates, RowsSorted, AtRecords, PagesOk, TablesOk;
    hide MacrosOk, PageOk, RecordsAt, MacroValues, ColumnPos, SameSizes;
    hide DbaArrays.Live, Positioned, Refs, Snapshot, Shaped, Apart, LiveFrom;
    rows, ems := rows0, ems0;
    ghost var tables, tbl := macros.ep, pages.ep;
    ghost var ms, at := MacroValues(cs, lv, tbl), RecordsAt(lv, tbl);
    var posMacrosPtr := WriteHead(st);
    if posMacrosPtr.None? {
      assert false;
      return None, rows, ems;
    }
    var front;
    front, rows, ems, at := WriteFront(st, pages, lv, rows0, ems0, tables, cs);
    EndBehind(rows0, ms);
    if front.None? {
      return None, rows, ems;
    }
    PositionsFit(at);
    RecordsAre(at, lv, tbl);
    SortedSizes(rows, rows0);
    SameEnd(rows, rows0, ms);
    MacroValuesAre(cs, lv, tbl);
    var posMacros := st.Tell();
    if posMacros.None? {
      return None, rows, ems;
    }
    r := WriteMacros(st, macros, RefMaps(cs, at), at);
    if r.None? {
      return;
    }
    var posEnd := st.Tell();
    if posEnd.None? {
      return None, rows, ems;
    }
    WriteEnd(st, posMacrosPtr.value, posMacros.value, posEnd.value, rows, ms);
    r := Some(());
  }

  // The end of the file is behind the macro tables, and these are behind the
  // last string of the pages table.
  lemma EndBehind(rows: seq<Row>, ms: seq<seq<Value>>)
    requires Shaped(rows)
    ensures ColumnPos(rows, 16, DBP_MAX) <= MacrosPos(rows) <= EndPos(rows, ms)
  {
    hide PagesBytes, MacrosBytes, ColumnPos;
    PagesSize(rows, 16);
  }

  lemma MacroValuesAre(cs: seq<Content>, lv: seq<Page>, tbl: seq<Page>)
    ensures MacroValues(cs, lv, tbl) == TabulatedAll(RefMaps(cs, RecordsAt(lv, tbl)))
  {
  }

  lemma PositionsFit(at: map<Page, nat>)
    requires Positioned(at)
    ensures forall p :: p in at ==> at[p] <= INT32_MAX
  {
  }

  lemma HeadWritten()
    ensures
      var b := Put(Put([], 0, IntBytes(MAGIC)), 4, IntBytes(VERSION));
      |b| == 8 && Put(b, 8, Zeros(8)) == IntBytes(MAGIC) + IntBytes(VERSION) + Zeros(8)
  {
  }

  lemma FileComplete(buf: Str, rows: seq<Row>, ms: seq<seq<Value>>)
    requires Shaped(rows)
    requires buf == IntBytes(MAGIC) + IntBytes(VERSION) + Zeros(8) + PagesBytes(rows, 16)
                    + MacrosBytes(ms, MacrosPos(rows)) + IntBytes(MAGIC)
    ensures 16 <= |buf|
    ensures Put(Put(buf, 8, IntBytes(MacrosPos(rows))), 12, IntBytes(EndPos(rows, ms))) == FileBytes(rows, ms)
  {
    hide PagesBytes, MacrosBytes, IntBytes, Put;
    var a, p, q := IntBytes(MAGIC) + IntBytes(VERSION), IntBytes(MacrosPos(rows)), IntBytes(EndPos(rows, ms));
    var rest := PagesBytes(rows, 16) + MacrosBytes(ms, MacrosPos(rows)) + IntBytes(MAGIC);
    assert buf == a + Zeros(8) + rest;
    PutTwice(buf, 8, p, q);
    PutReplaces(a, Zeros(8), rest, p + q);
    assert FileBytes(rows, ms) == a + (p + q) + rest;
  }

  // The live pages have got their positions, the deleted ones have none.
  lemma RecordsPlaced(pages: DbaArray<Page>, lv: seq<Page>, at: map<Page, nat>)
    requires at == PositionsOf(pages.ep) && Placed(lv, 20, |lv|) && forall p :: p in lv ==> p in pages.ep
    requires forall p :: p in pages.ep && p !in lv ==> p.pos == 0
    ensures AtRecords(at, lv, pages.ep) && Positioned(at)
  {
    forall p | p in at
      ensures p.pos == at[p] <= INT32_MAX
      ensures p !in lv ==> at[p] == 0
    {
      if p in lv {
        var i :| 0 <= i < |lv| && lv[i] == p;
      }
    }
  }
}
