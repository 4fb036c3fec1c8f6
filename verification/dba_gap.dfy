// A database that can be written, but not read: the limits of
// userland/mandoc/dba_write.c and userland/mandoc/dbm_map.c differ.
module DbaGap {
  import opened Bytes
  import opened DbaArrays
  import opened DbaEdit
  import opened DbaFile
  import opened DbaMacros
  import opened DbaPages
  import opened DbaRead
  import opened DbaWrite
  import opened Layout
  import opened OpenHash
  import opened Options
  import opened Sizes

  // No macro has any values.
  function NoValues(): (cs: seq<Content>)
    ensures |cs| == MACRO_MAX && forall i :: 0 <= i < MACRO_MAX ==> cs[i] == map[]
  {
    seq(MACRO_MAX, _ => map[])
  }

  lemma {:induction false} EmptyTables(ms: seq<seq<Value>>, o: nat, k: nat)
    requires o % 4 == 0 && k <= |ms| && forall i :: 0 <= i < |ms| ==> ms[i] == []
    ensures |Tables(ms, o, k)| == 4 * k
  {
    if k > 0 {
      EmptyTables(ms, o, k - 1);
      EmptyTable(o + |Tables(ms, o, k - 1)|);
    }
  }

  lemma EmptyTable(o: nat)
    requires o % 4 == 0
    ensures |TableBytes([], o)| == 4
  {
    assert Keys([]) == [] && PageLists([]) == [] && PairItems([], o) == [];
  }

  lemma EmptyMacros(ms: seq<seq<Value>>, o: nat)
    requires |ms| == MACRO_MAX && o % 4 == 0 && forall i :: 0 <= i < |ms| ==> ms[i] == []
    ensures |MacrosBytes(ms, o)| == 4 + 8 * MACRO_MAX
  {
    hide Tables, MacrosBytes;
    EmptyTables(ms, o + 4 + 4 * MACRO_MAX, MACRO_MAX);
    MacrosSize(ms, o, MACRO_MAX);
  }

  lemma NothingTabulated(cs: seq<Content>, lv: seq<Page>, tbl: seq<Page>)
    requires cs == NoValues()
    ensures forall i :: 0 <= i < MACRO_MAX ==> MacroValues(cs, lv, tbl)[i] == []
  {
    forall i | 0 <= i < MACRO_MAX
      ensures MacroValues(cs, lv, tbl)[i] == []
    {
      NoneTabulated(MacroValues(cs, lv, tbl)[i], RefMapOf(cs[i], RecordsAt(lv, tbl)));
    }
  }

  lemma NoneTabulated(vs: seq<Value>, refs: RefMap)
    requires Tabulates(vs, refs) && refs.Keys == {}
    ensures vs == []
  {
    TabulatesUnique(vs, [], refs);
  }

  // A page with nothing but a description, and the file "a".
  function LargePage(desc: Str): Row {
    NewRow(None, desc, [97], 1)
  }

  lemma LargeSize(desc: Str)
    ensures Shaped([LargePage(desc)])
    ensures ColumnPos([LargePage(desc)], 16, DBP_MAX) == 47 + |desc|
  {
    var row := LargePage(desc);
    var rows := [row];
    forall ie | 0 <= ie < DBP_MAX
      ensures |Flatten(Column(rows, ie))| == |FieldBytes(row[ie])|
    {
      hide FieldBytes;
      assert Column(rows, ie) == [FieldBytes(row[ie])];
      assert Flatten([FieldBytes(row[ie])][..0]) == [];
    }
    hide Column, FieldBytes, Flatten;
    FieldSizes(desc);
    ColumnPosGrows(rows, 16, 0, DBP_MAX);
    ColumnPosGrows(rows, 16, 1, DBP_MAX);
    ColumnPosGrows(rows, 16, 2, DBP_MAX);
    ColumnPosGrows(rows, 16, 3, DBP_MAX);
    ColumnPosGrows(rows, 16, 4, DBP_MAX);
    ColumnPosStart(rows, 16);
  }

  lemma FieldSizes(desc: Str)
    ensures
      var row := LargePage(desc);
      && |FieldBytes(row[DBP_NAME])| == |FieldBytes(row[DBP_SECT])| == 1 && |FieldBytes(row[DBP_ARCH])| == 0
      && |FieldBytes(row[DBP_DESC])| == |desc| + 1 && |FieldBytes(row[DBP_FILE])| == 4
  {
    ListSize([]);
    ListSize([[1, 97]]);
    assert [[1, 97]][..0] == [] && [1] + [97] == [1, 97];
  }

  lemma LargeEnd(desc: Str, ms: seq<seq<Value>>)
    requires |ms| == MACRO_MAX && forall i :: 0 <= i < |ms| ==> ms[i] == []
    ensures Shaped([LargePage(desc)])
    ensures EndPos([LargePage(desc)], ms) == 47 + |desc| + PadLen(47 + |desc|) + 292
  {
    hide PagesBytes, MacrosBytes, ColumnPos, LargePage;
    LargeSize(desc);
    PagesSize([LargePage(desc)], 16);
    EmptyMacros(ms, MacrosPos([LargePage(desc)]));
  }

  // Create the tables of all macros.
  method NewTables(hash: Str -> Hash) returns (macros: DbaArray<MacroTable>)
    ensures fresh(macros) && macros.Valid() && |macros.ep| == MACRO_MAX
    ensures (forall i :: 0 <= i < MACRO_MAX ==> macros.em[i] == 0) && TablesOk(macros.ep, NoValues(), [])
  {
    hide LiveFrom, TableOk;
    macros := new DbaArray<MacroTable>(MACRO_MAX, false);
    for im := 0 to MACRO_MAX
      invariant fresh(macros) && macros.Valid() && macros.ea == MACRO_MAX && |macros.ep| == im
      invariant forall i :: 0 <= i < im ==> macros.em[i] == 0
      invariant forall i {:trigger macros.ep[i]} :: 0 <= i < im ==> TableOk(macros.ep[i]) && macros.ep[i].m == map[]
    {
      ghost var tables := macros.ep;
      var macro := NewTable(hash);
      macros.Set(im, macro);
      forall j | 0 <= j < im
        ensures TableOk(tables[j]) && tables[j].m == map[]
      {
      }
      assert macros.ep == tables + [macro];
    }
  }

  // A new database with one page.
  lemma OnePage(pages: DbaArray<Page>, page: Page, macros: DbaArray<MacroTable>)
    requires PagesOk(pages) && pages.ep == [page] && pages.em == [0] && page.pos == 0
    requires macros.Valid() && |macros.ep| == MACRO_MAX && TablesOk(macros.ep, NoValues(), [])
    requires forall i :: 0 <= i < MACRO_MAX ==> macros.em[i] == 0
    ensures Writable(pages, macros, NoValues()) && DbaArrays.Live(pages.ep, pages.em) == [page]
    ensures Snapshot([page], [page.ep], [page.em])
  {
    hide PageOk, TableOk, Holds;
    assert LiveFrom([0], 0) == [0];
  }

  // Create a database with a page that has this description.
  method NewDatabase(desc: Str, hash: Str -> Hash)
    returns (pages: DbaArray<Page>, macros: DbaArray<MacroTable>, ghost page: Page)
    requires NoNul(desc)
    ensures fresh(pages) && fresh(macros) && fresh(page) && pages.ep == [page] && page.ep == LargePage(desc)
    ensures Writable(pages, macros, NoValues()) && DbaArrays.Live(pages.ep, pages.em) == [page]
    ensures Snapshot([page], [page.ep], [page.em]) && Assembled(page.ep)
  {
    hide PageOk, PagesOk, TablesOk, TableOk, LiveFrom, Writable, DbaArrays.Live, Snapshot, NoValues;
    pages := new DbaArray<Page>(1, true);
    NoPages(pages);
    var p := PageNew(pages, None, desc, [97], 1);
    page := p;
    macros := NewTables(hash);
    OnePage(pages, p, macros);
  }

  // For example, with a description of 2147483305 bytes.
  method GapExample(hash: Str -> Hash) returns (written: bool, read: bool, size: nat)
    ensures written && !read && size == 0x8000_0000
  {
    hide Restored, Writable, DbaArrays.Live, Snapshot, EndPos, MacroValues, Built, NoValues, LargePage;
    var desc: Str := seq(2147483305, _ => 97);
    var pages, macros;
    ghost var page;
    pages, macros, page := NewDatabase(desc, hash);
    var st := new Stream();
    ghost var cs, ms := NoValues(), MacroValues(NoValues(), [page], [page]);
    NothingTabulated(cs, [page], [page]);
    LargeEnd(desc, ms);
    var r;
    written, r := WriteAndRead(st, pages, macros, hash, [page], [page.ep], [page.em], cs);
    read, size := r.Some?, |st.buf|;
  }

  lemma NoPages(pages: DbaArray<Page>)
    requires pages.Valid() && pages.ep == []
    ensures PagesOk(pages)
  {
  }
}
