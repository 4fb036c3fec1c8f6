// Reading the database file back into memory: userland/mandoc/dba_read.c.
module DbaRead {
  import opened Bytes
  import opened DbaArrays
  import opened DbaEdit
  import opened DbaFile
  import opened DbaMacros
  import opened DbaPages
  import opened DbaWrite
  import opened Dbm
  import opened DbmQuery
  import opened Layout
  import opened Locate
  import opened OpenHash
  import opened Options
  import opened Order
  import opened Sizes

  lemma NotKnown(l: seq<Str>, ie: nat, i: nat)
    requires NoRepeats(l, ie) && i < |l|
    ensures !Known(l[..i], l[i], ie)
  {
  }

  lemma ListEnds(f: Str, o: nat, l: seq<Str>, k: nat)
    requires At(f, o, ListBytes(l)) && ListOk(l) && k <= |l|
    ensures var p := o + Offset(StrItems(l), k); p < |f| && (f[p] == 0 <==> k == |l|)
  {
    hide Offset, At, ListBytes;
    if k < |l| {
      ListItemAt(f, o, l, k);
    } else {
      ListEndAt(f, o, l);
    }
  }

  // Add the strings of a list from string i on, where cp points to.
  method AddStrings(page: Page, ie: nat, f: Str, cp: nat, ghost o: nat, ghost l: seq<Str>, ghost i: nat)
    requires PageOk(page) && ie < DBP_MAX && ie != DBP_DESC
    requires At(f, o, ListBytes(l)) && ListOk(l) && NoRepeats(l, ie) && i <= |l|
    requires cp == o + Offset(StrItems(l), i) && page.ep[ie] == Strings(l[..i])
    modifies page
    ensures PageOk(page) && page.pos == old(page.pos)
    ensures page.ep == old(page.ep)[ie := Strings(l)]
  {
    hide Offset, At, ListBytes, Known, RowOk, NoRepeats, LiveFrom;
    var p := cp;
    ghost var k := i;
    ListEndAt(f, o, l);
    while p < |f| && f[p] != 0
      invariant PageOk(page) && page.pos == old(page.pos) && |page.ep| == DBP_MAX
      invariant k <= |l| && p == o + Offset(StrItems(l), k)
      invariant page.ep == old(page.ep)[ie := Strings(l[..k])]
      decreases |l| - k
    {
      ListEnds(f, o, l, k);
      ListItemAt(f, o, l, k);
      NotKnown(l, ie, k);
      assert l[..k + 1] == l[..k] + [l[k]];
      PageAdd(page, ie, Some(StrAt(f, p)));
      p := NextStr(f, p);
      k := k + 1;
    }
    ListEnds(f, o, l, k);
    assert l[..k] == l;
  }

  // A string list starts with its first string, and going on from the end
  // of that string leads to the second one.
  lemma FirstOfList(f: Str, o: nat, l: seq<Str>)
    requires ListOk(l) && l != [] && At(f, o, ListBytes(l))
    ensures StrAt(f, o) == l[0] && f[o] == l[0][0] != 0 && NextStr(f, o) == o + Offset(StrItems(l), 1) < |f|
    ensures o + 1 <= |f| && StrAt(f, o + 1) == l[0][1..]
  {
    OffsetStart(StrItems(l));
    ListItemAt(f, o, l, 0);
    assert StrEnd(f, o) == StrEnd(f, o + 1);
    assert f[o..StrEnd(f, o)][1..] == f[o + 1..StrEnd(f, o)];
  }

  // The pointers of d lead to the entries of this page.
  ghost predicate Leads(d: PageData, f: Str, row: Row)
    requires RowShape(row)
  {
    && d.name.mem == d.sect.mem == d.desc.mem == d.file.mem == f
    && At(f, d.name.o, FieldBytes(row[DBP_NAME])) && At(f, d.sect.o, FieldBytes(row[DBP_SECT]))
    && At(f, d.desc.o, FieldBytes(row[DBP_DESC])) && At(f, d.file.o, FieldBytes(row[DBP_FILE]))
    && (d.arch == None <==> row[DBP_ARCH].Null?)
    && (d.arch.Some? ==> d.arch.value.mem == f && At(f, d.arch.value.o, FieldBytes(row[DBP_ARCH])))
  }

  // What dba_page_new() puts into the page.
  function FirstRow(row: Row): Row
    requires Built(row)
  {
    [Strings([]), Strings([]), if row[DBP_ARCH].Strings? then Strings(row[DBP_ARCH].l[..1]) else Field.Null,
     row[DBP_DESC], Strings(row[DBP_FILE].l[..1])]
  }

  // Add the other strings to a new page.
  method FillPage(page: Page, d: PageData, ghost f: Str, ghost row: Row)
    requires Built(row) && Leads(d, f, row) && PageOk(page) && page.ep == FirstRow(row)
    modifies page
    ensures PageOk(page) && page.ep == row && page.pos == old(page.pos)
  {
    hide At, ListBytes, StrBytes, RowOk, NoRepeats, LiveFrom, Offset, PageOk, Built;
    BuiltRow(row);
    OffsetStart(StrItems(row[DBP_NAME].l));
    OffsetStart(StrItems(row[DBP_SECT].l));
    AddStrings(page, DBP_NAME, d.name.mem, d.name.o, d.name.o, row[DBP_NAME].l, 0);
    AddStrings(page, DBP_SECT, d.sect.mem, d.sect.o, d.sect.o, row[DBP_SECT].l, 0);
    if d.arch.Some? {
      FirstOfList(f, d.arch.value.o, row[DBP_ARCH].l);
      var cp := NextStr(d.arch.value.mem, d.arch.value.o);
      AddStrings(page, DBP_ARCH, d.arch.value.mem, cp, d.arch.value.o, row[DBP_ARCH].l, 1);
    }
    FirstOfList(f, d.file.o, row[DBP_FILE].l);
    var cp := NextStr(d.file.mem, d.file.o);
    AddStrings(page, DBP_FILE, d.file.mem, cp, d.file.o, row[DBP_FILE].l, 1);
    assert page.ep == row;
  }

  // The arguments dba_read() passes to dba_page_new() make the first row.
  lemma FirstRowRead(d: PageData, f: Str, row: Row)
    requires Built(row) && Leads(d, f, row)
    ensures d.desc.o <= |f| && d.file.o < |f| && d.file.o + 1 <= |f| && (d.arch.Some? ==> d.arch.value.o <= |f|)
    ensures f[d.file.o] != 0 && NoNul(StrAt(f, d.desc.o)) && NoNul(StrAt(f, d.file.o + 1))
    ensures
      var arch := if d.arch.Some? then Some(StrAt(f, d.arch.value.o)) else None;
      && (arch.Some? ==> NoNul(arch.value))
      && NewRow(arch, StrAt(f, d.desc.o), StrAt(f, d.file.o + 1), f[d.file.o]) == FirstRow(row)
  {
    hide At, ListBytes, StrBytes, RowOk, NoRepeats, Offset, Built;
    BuiltRow(row);
    StrRoundTrip(f, d.desc.o, row[DBP_DESC].s);
    var l := row[DBP_FILE].l;
    FirstOfList(f, d.file.o, l);
    assert [l[0][0]] + l[0][1..] == l[0];
    assert l[..1] == [l[0]];
    if d.arch.Some? {
      FirstOfList(f, d.arch.value.o, row[DBP_ARCH].l);
      assert row[DBP_ARCH].l[..1] == [row[DBP_ARCH].l[0]];
    }
  }

  // Read page number ip.
  method ReadPage(f: Str, pages: DbaArray<Page>, ip: nat, ghost rows: seq<Row>, ghost ms: seq<seq<Value>>)
    returns (page: Page)
    requires Shaped(rows) && f == FileBytes(rows, ms) && |f| <= INT32_MAX && ip < |rows| && Built(rows[ip])
    requires PagesOk(pages) && pages.grow
    modifies pages
    ensures PagesOk(pages) && fresh(page) && pages.ep == old(pages.ep) + [page] && pages.em == old(pages.em) + [0]
    ensures page.ep == rows[ip] && page.pos == 0
  {
    hide FileBytes, At, StrAt, RowOk, LiveFrom, Built, FirstRow, NewRow, PageOk, PageGet;
    var d := PageGet(f, ip);
    WrittenPage(rows, ms, ip);
    FirstRowRead(d, f, rows[ip]);
    var arch: Option<Str> := if d.arch.Some? then Some(StrAt(d.arch.value.mem, d.arch.value.o)) else None;
    page := PageNew(pages, arch, StrAt(d.desc.mem, d.desc.o), StrAt(d.file.mem, d.file.o + 1), d.file.mem[d.file.o]);
    ghost var tbl := pages.ep;
    assert PageOk(page) by {
      assert tbl[|tbl| - 1] == page;
    }
    FillPage(page, d, f, rows[ip]);
    forall i | 0 <= i < |tbl|
      ensures PageOk(tbl[i])
    {
    }
  }

  lemma BuiltRow(row: Row)
    requires Built(row)
    ensures RowShape(row)
    ensures forall ie :: 0 <= ie < DBP_MAX && row[ie].Strings? ==> ListOk(row[ie].l) && NoRepeats(row[ie].l, ie)
    ensures NoNul(row[DBP_DESC].s)
    ensures row[DBP_ARCH].Strings? ==> row[DBP_ARCH].l != [] && row[DBP_ARCH].l[0] != []
    ensures row[DBP_FILE].l != [] && row[DBP_FILE].l[0] != [] && NoNul(row[DBP_FILE].l[0][1..])
  {
  }

  // Read all pages.
  method ReadPages(f: Str, npages: nat, ghost rows: seq<Row>, ghost ms: seq<seq<Value>>) returns (pages: DbaArray<Page>)
    requires Shaped(rows) && f == FileBytes(rows, ms) && |f| <= INT32_MAX && npages == |rows|
    requires forall i :: 0 <= i < |rows| ==> Built(rows[i])
    ensures fresh(pages) && PagesOk(pages) && |pages.ep| == |rows|
    ensures forall i :: 0 <= i < |rows| ==> pages.ep[i].ep == rows[i] && pages.em[i] == 0
    ensures forall p :: p in pages.ep ==> fresh(p) && p.pos == 0
  {
    hide FileBytes, RowOk, Built, PageOk, LiveFrom, Shaped;
    pages := new DbaArray<Page>(if npages < 128 then 128 else npages, true);
    for ip := 0 to npages
      invariant fresh(pages) && PagesOk(pages) && pages.grow && |pages.ep| == ip
      invariant forall i :: 0 <= i < ip ==> pages.ep[i].ep == rows[i] && pages.em[i] == 0
      invariant forall p :: p in pages.ep ==> fresh(p) && p.pos == 0
    {
      ghost var tbl := pages.ep;
      var page := ReadPage(f, pages, ip, rows, ms);
      assert forall i :: 0 <= i < ip ==> pages.ep[i] == tbl[i];
    }
  }

  /*** macros ************************************************************/

  // get_macro_entry(): the entry of a value, which may be new and empty.
  method GetMacroEntry(macro: MacroTable, value: Str) returns (entry: MacroEntry)
    requires TableOk(macro) && macro.total < MAXUSED && value != [] && NoNul(value)
    requires macro.keyOf == EntryKey
    modifies macro, macro.t
    ensures TableOk(macro) && (macro.t == old(macro.t) || fresh(macro.t)) && macro.total <= old(macro.total) + 1
    ensures if value in old(macro.m) then entry == old(macro.m)[value] && macro.m == old(macro.m)
            else fresh(entry) && entry.pages == [] && macro.m == old(macro.m)[value := entry]
    ensures entry.value == value
  {
    hide Ohash.Valid, Ohash.Ready;
    var slot := macro.Lookup(value, macro.hash(value));
    var r := macro.Find(slot);
    if r.None? {
      entry := new MacroEntry(value);
      macro.Insert(slot, entry);
    } else {
      entry := r.value;
    }
  }

  // Add one page reference to the entry of a macro value.
  method MacroAdd(macro: MacroTable, value: Str, page: Page, ghost c: Content)
    requires TableOk(macro) && macro.keyOf == EntryKey && macro.total < MAXUSED && NoNul(value) && Holds(macro.m, c)
    modifies macro, macro.t, macro.m.Values
    ensures TableOk(macro) && (macro.t == old(macro.t) || fresh(macro.t)) && macro.total <= old(macro.total) + 1
    ensures forall e :: e in macro.m.Values ==> e in old(macro.m).Values || fresh(e)
    ensures Holds(macro.m, if value == [] then c else c[value := (if value in c then c[value] else []) + [page]])
  {
    hide Ohash.Valid;
    if value == [] {
      return;
    }
    var entry := GetMacroEntry(macro, value);
    entry.pages := entry.pages + [page];
  }

  // What the writer guarantees about the values of a macro, for n pages.
  ghost predicate ValuesOk(vs: seq<Value>, n: nat) {
    && (forall i :: 0 <= i < |vs| ==> vs[i].key != [] && NoNul(vs[i].key) && RefsOk(vs[i].refs, n))
    && (forall i, j :: 0 <= i < j < |vs| ==> vs[i].key != vs[j].key)
  }

  // These are offsets of page records.
  ghost predicate RefsOk(refs: seq<nat>, n: nat) {
    forall j :: 0 <= j < |refs| ==>
          refs[j] <= INT32_MAX && PageIndex(refs[j]) < n && refs[j] == PageAddr(PageIndex(refs[j]))
  }

  // The number of the page whose record starts at this offset.
  function PageIndex(ref: nat): nat {
    if ref < 20 then 0 else ref / 5 / 4 - 1
  }

  // The page record at offset PageAddr(i) is that of page i.
  lemma PageIndexInverts(i: nat)
    ensures PageIndex(PageAddr(i)) == i
  {
    assert (20 + 20 * i) / 5 == 4 + 4 * i;
  }

  // The pages these references stand for.
  ghost function PagesAt(tbl: seq<Page>, refs: seq<nat>): (ps: seq<Page>)
    requires RefsOk(refs, |tbl|)
    ensures |ps| == |refs|
    ensures forall j :: 0 <= j < |refs| ==> ps[j] == tbl[PageIndex(refs[j])]
  {
    seq(|refs|, j requires 0 <= j < |refs| => tbl[PageIndex(refs[j])])
  }

  // The list of references at offset o.
  ghost predicate RefList(f: Str, o: nat, refs: seq<nat>) {
    forall j :: 0 <= j <= |refs| ==> MapInt(f, o + 4 * j) == if j < |refs| then refs[j] else 0
  }

  // Append the pages in a list of references to an entry.
  method AddRefs(entry: MacroEntry, f: Str, pp: nat, pages: DbaArray<Page>, ghost tbl: seq<Page>, ghost refs: seq<nat>)
    requires pages.Valid() && pages.ep == tbl && (forall i :: 0 <= i < |pages.em| ==> pages.em[i] != -1)
    requires RefsOk(refs, |tbl|) && RefList(f, pp, refs)
    requires pages != (entry as object)
    modifies entry`pages
    ensures entry.pages == old(entry.pages) + PagesAt(tbl, refs)
  {
    hide MapInt, LiveFrom;
    ghost var ps, j: nat := PagesAt(tbl, refs), 0;
    var ip := pp;
    while MapInt(f, ip) != 0
      invariant j <= |refs| && ip == pp + 4 * j
      invariant entry.pages == old(entry.pages) + ps[..j]
      decreases |refs| - j
    {
      RefListEnds(f, pp, refs, |tbl|, j);
      ListedPage(refs, |tbl|, j);
      var page := pages.Get(MapInt(f, ip) / 5 / 4 - 1);
      entry.pages := entry.pages + [page.value];
      assert ps[..j + 1] == ps[..j] + [tbl[PageIndex(refs[j])]];
      ip := ip + 4;
      j := j + 1;
    }
    RefListEnds(f, pp, refs, |tbl|, j);
    assert ps[..j] == ps;
  }

  lemma RefListEnds(f: Str, o: nat, refs: seq<nat>, n: nat, j: nat)
    requires RefsOk(refs, n) && RefList(f, o, refs) && j <= |refs|
    ensures MapInt(f, o + 4 * j) == 0 <==> j == |refs|
  {
    hide MapInt;
    assert forall x :: 0 <= x < |refs| ==> refs[x] != 0;
    assert MapInt(f, o + 4 * j) == if j < |refs| then refs[j] else 0;
  }

  lemma ListedPage(refs: seq<nat>, n: nat, j: nat)
    requires RefsOk(refs, n) && j < |refs|
    ensures refs[j] != 0 && refs[j] / 5 / 4 - 1 == PageIndex(refs[j]) < n
  {
  }

  // Add page references to the entry of a macro value, converting them from
  // offsets in the file to pages in memory.
  method MacroNew(macro: MacroTable, value: Str, f: Str, pp: nat, pages: DbaArray<Page>,
                  ghost refs: seq<nat>, ghost c: Content)
    requires TableOk(macro) && macro.keyOf == EntryKey && macro.total < MAXUSED && value != [] && NoNul(value)
    requires Holds(macro.m, c)
    requires pages.Valid() && (forall i :: 0 <= i < |pages.em| ==> pages.em[i] != -1)
    requires RefsOk(refs, |pages.ep|) && RefList(f, pp, refs)
    modifies macro, macro.t, macro.m.Values
    ensures TableOk(macro) && (macro.t == old(macro.t) || fresh(macro.t)) && macro.total <= old(macro.total) + 1
    ensures forall e :: e in macro.m.Values ==> e in old(macro.m).Values || fresh(e)
    ensures Holds(macro.m, c[value := (if value in c then c[value] else []) + PagesAt(pages.ep, refs)])
  {
    hide RefsOk, RefList, LiveFrom, Ohash.Valid;
    ghost var tbl := pages.ep;
    assert pages.Valid();
    var entry := GetMacroEntry(macro, value);
    assert pages.Valid();
    AddRefs(entry, f, pp, pages, tbl, refs);
  }

  // The macro values with their pages.
  ghost function ContentOf(vs: seq<Value>, tbl: seq<Page>): Content
    requires forall i :: 0 <= i < |vs| ==> RefsOk(vs[i].refs, |tbl|)
  {
    if vs == [] then map[]
    else
      var v := vs[|vs| - 1];
      ContentOf(vs[..|vs| - 1], tbl)[v.key := PagesAt(tbl, v.refs)]
  }

  lemma {:induction false} ContentIs(vs: seq<Value>, tbl: seq<Page>)
    requires forall i :: 0 <= i < |vs| ==> RefsOk(vs[i].refs, |tbl|)
    requires forall i, j :: 0 <= i < j < |vs| ==> vs[i].key != vs[j].key
    ensures forall k :: k in ContentOf(vs, tbl) <==> exists i :: 0 <= i < |vs| && vs[i].key == k
    ensures forall i :: 0 <= i < |vs| ==>
              vs[i].key in ContentOf(vs, tbl) && ContentOf(vs, tbl)[vs[i].key] == PagesAt(tbl, vs[i].refs)
  {
    if vs != [] {
      ContentIs(vs[..|vs| - 1], tbl);
    }
  }

  // Value iv of a written macro table.
  lemma WrittenValue(f: Str, vs: seq<Value>, o: nat, iv: nat, n: nat)
    requires At(f, o, TableBytes(vs, o)) && |f| <= INT32_MAX && iv < |vs| && ValuesOk(vs, n)
    ensures
      var kp, lp := MapInt(f, o + 4 + 8 * iv), MapInt(f, o + 4 + 8 * iv + 4);
      && 0 <= kp < |f| && 0 <= lp < |f|
      && StrAt(f, kp) == vs[iv].key && RefList(f, lp, vs[iv].refs)
  {
    hide TableBytes, IntAt, KeyPos, ListPos, StrAt, At;
    ValueAt(f, vs, o, iv);
    StrRoundTrip(f, KeyPos(vs, o, iv), vs[iv].key);
    forall j | 0 <= j <= |vs[iv].refs|
      ensures ListPos(vs, o, iv) + 4 * j + 4 <= |f|
      ensures IntAt(f, ListPos(vs, o, iv) + 4 * j) == if j < |vs[iv].refs| then vs[iv].refs[j] else 0
    {
      RefAt(f, vs, o, iv, j);
    }
    KeyStart(f, KeyPos(vs, o, iv), vs[iv].key);
  }

  lemma KeyStart(f: Str, p: nat, s: Str)
    requires At(f, p, StrBytes(s))
    ensures p < |f|
  {
  }

  // Read value iv of a macro, which is not yet in its table.
  method ReadValue(f: Str, macro: MacroTable, mtab: nat, iv: nat, pages: DbaArray<Page>, ghost vs: seq<Value>,
      ghost c: Content)
    requires TableOk(macro) && macro.keyOf == EntryKey && macro.total <= iv < |vs| <= MAXUSED
    requires pages.Valid() && (forall i :: 0 <= i < |pages.em| ==> pages.em[i] != -1)
    requires mtab >= 4 && At(f, mtab - 4, TableBytes(vs, mtab - 4)) && |f| <= INT32_MAX && ValuesOk(vs, |pages.ep|)
    requires Holds(macro.m, c) && vs[iv].key !in c && RefsOk(vs[iv].refs, |pages.ep|)
    modifies macro, macro.t, macro.m.Values
    ensures TableOk(macro) && (macro.t == old(macro.t) || fresh(macro.t)) && macro.total <= iv + 1
    ensures forall e :: e in macro.m.Values ==> e in old(macro.m).Values || fresh(e)
    ensures Holds(macro.m, c[vs[iv].key := PagesAt(pages.ep, vs[iv].refs)])
  {
    hide MapInt, At, TableBytes, LiveFrom, Ohash.Valid, RefsOk, RefList, Holds;
    WrittenValue(f, vs, mtab - 4, iv, |pages.ep|);
    var value := Get(f, MapInt(f, mtab + 8 * iv));
    var pp := Get(f, MapInt(f, mtab + 8 * iv + 4));
    MacroNew(macro, StrAt(f, value.value), f, pp.value, pages, vs[iv].refs, c);
    assert [] + PagesAt(pages.ep, vs[iv].refs) == PagesAt(pages.ep, vs[iv].refs);
  }

  // Read the values of one macro into its empty table.
  method ReadMacro(f: Str, macro: MacroTable, nval: int, mtab: nat, pages: DbaArray<Page>, ghost vs: seq<Value>)
    requires TableOk(macro) && macro.keyOf == EntryKey && macro.m == map[] && macro.total == 0
    requires pages.Valid() && (forall i :: 0 <= i < |pages.em| ==> pages.em[i] != -1)
    requires mtab >= 4 && At(f, mtab - 4, TableBytes(vs, mtab - 4)) && |f| <= INT32_MAX
    requires ValuesOk(vs, |pages.ep|) && nval == |vs| <= MAXUSED
    modifies macro, macro.t
    ensures TableOk(macro) && (macro.t == old(macro.t) || fresh(macro.t))
    ensures forall e :: e in macro.m.Values ==> fresh(e)
    ensures Holds(macro.m, ContentOf(vs, pages.ep))
  {
    hide MapInt, At, TableBytes, LiveFrom, Ohash.Valid, RefsOk, RefList;
    ghost var tbl := pages.ep;
    for iv := 0 to nval
      invariant TableOk(macro) && macro.total <= iv && (macro.t == old(macro.t) || fresh(macro.t))
      invariant pages.Valid()
      invariant forall e :: e in macro.m.Values ==> fresh(e)
      invariant Holds(macro.m, ContentOf(vs[..iv], tbl))
    {
      NewKey(vs, tbl, iv);
      assert vs[..iv + 1][..iv] == vs[..iv];
      ReadValue(f, macro, mtab, iv, pages, vs, ContentOf(vs[..iv], tbl));
    }
    assert vs[..nval] == vs;
  }

  lemma NewKey(vs: seq<Value>, tbl: seq<Page>, iv: nat)
    requires ValuesOk(vs, |tbl|) && iv < |vs|
    ensures vs[iv].key !in ContentOf(vs[..iv], tbl)
  {
    ContentIs(vs[..iv], tbl);
  }

  lemma ValuesFit(f: Str, vs: seq<Value>, o: nat)
    requires At(f, o, TableBytes(vs, o)) && |f| <= INT32_MAX
    ensures |vs| <= MAXUSED
  {
    FlattenLength(PairItems(vs, o), 8);
  }

  /*** the whole file *****************************************************/

  // What the writer guarantees about what it writes.
  ghost predicate WellFormed(rows: seq<Row>, ms: seq<seq<Value>>) {
    && Shaped(rows) && (forall i :: 0 <= i < |rows| ==> Built(rows[i]))
    && |ms| == MACRO_MAX && (forall im :: 0 <= im < MACRO_MAX ==> ValuesOk(ms[im], |rows|))
  }

  // The macro table in memory holds these values.
  ghost predicate TableHolds(macro: MacroTable, vs: seq<Value>, tbl: seq<Page>)
    reads macro, macro.t, macro.m.Values
  {
    && TableOk(macro)
    && (forall i :: 0 <= i < |vs| ==> RefsOk(vs[i].refs, |tbl|))
    && Holds(macro.m, ContentOf(vs, tbl))
  }

  // So do the first n macro tables.
  ghost predicate TablesHold(tables: seq<MacroTable>, ms: seq<seq<Value>>, tbl: seq<Page>, n: nat)
    reads tables, set i | 0 <= i < |tables| :: tables[i].t, set i, e | 0 <= i < |tables| && e in tables[i].m.Values :: e
  {
    n <= |tables| && n <= |ms| && forall im {:trigger tables[im]} :: 0 <= im < n ==> TableHolds(tables[im], ms[im], tbl)
  }

  // What the index says about macro im.
  lemma IndexEntry(rows: seq<Row>, ms: seq<seq<Value>>, ix: Index, im: nat)
    requires WellFormed(rows, ms) && |FileBytes(rows, ms)| <= INT32_MAX && IndexOf(ix, FileBytes(rows, ms))
             && im < MACRO_MAX
    ensures |ix.macros| == |ix.nvals| == MACRO_MAX
    ensures ix.macros[im] >= 4 && At(FileBytes(rows, ms), ix.macros[im] - 4, TableBytes(ms[im], ix.macros[im] - 4))
    ensures ix.nvals[im] == |ms[im]| <= MAXUSED
  {
    hide FileBytes, MapInt, At, TableBytes, Built, Opens, ValuesOk;
    var f := FileBytes(rows, ms);
    WrittenOpens(rows, ms);
    assert MacroPlaced(f, MapInt(f, 8), im, ix.nvals[im], ix.macros[im]);
    WrittenTable(rows, ms, im);
    ValuesFit(f, ms[im], ix.macros[im] - 4);
  }

  // Read the table of macro im.
  method ReadTable(f: Str, ix: Index, im: nat, hash: Str -> Hash, pages: DbaArray<Page>, ghost rows: seq<Row>,
      ghost ms: seq<seq<Value>>)
    returns (macro: MacroTable)
    requires WellFormed(rows, ms) && f == FileBytes(rows, ms) && |f| <= INT32_MAX && IndexOf(ix, f)
             && im < MACRO_MAX == |ms|
    requires pages.Valid() && |pages.ep| == |rows| && (forall i :: 0 <= i < |pages.em| ==> pages.em[i] != -1)
    ensures fresh(macro) && fresh(macro.t) && (forall e :: e in macro.m.Values ==> fresh(e))
    ensures TableHolds(macro, ms[im], pages.ep)
  {
    hide FileBytes, MapInt, At, TableBytes, LiveFrom, TableOk, Holds, RefsOk, Built, IndexOf;
    macro := NewTable(hash);
    IndexEntry(rows, ms, ix, im);
    ReadMacro(f, macro, ix.nvals[im], ix.macros[im], pages, ms[im]);
  }

  // Read all macro tables.
  method ReadMacros(f: Str, ix: Index, hash: Str -> Hash, pages: DbaArray<Page>, ghost rows: seq<Row>,
      ghost ms: seq<seq<Value>>)
    returns (macros: DbaArray<MacroTable>)
    requires WellFormed(rows, ms) && f == FileBytes(rows, ms) && |f| <= INT32_MAX && IndexOf(ix, f)
    requires pages.Valid() && |pages.ep| == |rows| && (forall i :: 0 <= i < |pages.em| ==> pages.em[i] != -1)
    ensures fresh(macros) && macros.Valid() && |macros.ep| == MACRO_MAX
            && (forall i :: 0 <= i < MACRO_MAX ==> macros.em[i] == 0)
    ensures TablesHold(macros.ep, ms, pages.ep, MACRO_MAX)
  {
    hide FileBytes, LiveFrom, TableHolds, WellFormed, IndexOf;
    macros := new DbaArray<MacroTable>(MACRO_MAX, false);
    assert |ms| == MACRO_MAX by {
      MacroCount(rows, ms);
    }
    ghost var tbl := pages.ep;
    for im := 0 to MACRO_MAX
      invariant fresh(macros) && macros.Valid() && macros.ea == MACRO_MAX && |macros.ep| == im
      invariant forall i :: 0 <= i < im ==> macros.em[i] == 0
      invariant TablesHold(macros.ep, ms, tbl, im)
    {
      hide TablesHold;
      ghost var tables := macros.ep;
      TablesHoldEach(tables, ms, tbl, im);
      var macro := ReadTable(f, ix, im, hash, pages, rows, ms);
      macros.Set(im, macro);
      forall j | 0 <= j < im
        ensures TableHolds(tables[j], ms[j], tbl)
      {
      }
      TablesHoldNext(tables, macro, ms, tbl, im);
    }
  }

  lemma TablesHoldEach(tables: seq<MacroTable>, ms: seq<seq<Value>>, tbl: seq<Page>, n: nat)
    requires TablesHold(tables, ms, tbl, n)
    ensures n <= |tables| && n <= |ms| && forall im :: 0 <= im < n ==> TableHolds(tables[im], ms[im], tbl)
  {
    hide TableHolds;
  }

  lemma TablesHoldNext(tables: seq<MacroTable>, macro: MacroTable, ms: seq<seq<Value>>, tbl: seq<Page>, n: nat)
    requires n == |tables| < |ms| && forall im :: 0 <= im < n ==> TableHolds(tables[im], ms[im], tbl)
    requires TableHolds(macro, ms[n], tbl)
    ensures TablesHold(tables + [macro], ms, tbl, n + 1)
  {
    hide TableHolds;
    var next := tables + [macro];
    forall im | 0 <= im < n + 1
      ensures TableHolds(next[im], ms[im], tbl)
    {
      assert im < n ==> next[im] == tables[im];
    }
  }

  lemma MacroCount(rows: seq<Row>, ms: seq<seq<Value>>)
    requires WellFormed(rows, ms)
    ensures |ms| == MACRO_MAX
  {
  }

  method NewTable(hash: Str -> Hash) returns (macro: MacroTable)
    ensures fresh(macro) && fresh(macro.t) && TableOk(macro)
    ensures macro.keyOf == EntryKey && macro.m == map[] && macro.total == 0
  {
    macro := new Ohash(4, EntryKey, hash);
  }

  // Read a database file, if it can be opened.
  method Read(f: Str, hash: Str -> Hash, ghost rows: seq<Row>, ghost ms: seq<seq<Value>>)
    returns (r: Option<(DbaArray<Page>, DbaArray<MacroTable>)>)
    requires Opens(f) ==> WellFormed(rows, ms) && f == FileBytes(rows, ms)
    ensures r.Some? <==> Opens(f)
    ensures r.Some? ==>
              var pages, macros := r.value.0, r.value.1;
              && fresh(pages) && PagesOk(pages) && |pages.ep| == |rows|
              && (forall i :: 0 <= i < |rows| ==> pages.ep[i].ep == rows[i] && pages.em[i] == 0 && pages.ep[i].pos == 0)
              && fresh(macros) && macros.Valid() && |macros.ep| == MACRO_MAX
              && (forall i :: 0 <= i < MACRO_MAX ==> macros.em[i] == 0)
              && TablesHold(macros.ep, ms, pages.ep, MACRO_MAX)
  {
    hide FileBytes, Built, PageOk, TablesHold, LiveFrom, IndexOf, ValuesOk;
    var ix := Open(f);
    if ix.Failure? {
      return None;
    }
    OpenedSize(f);
    WrittenOpens(rows, ms);
    assert ix.value.npages == |rows| by {
      PageCount(f, ix.value);
    }
    var pages := ReadPages(f, ix.value.npages, rows, ms);
    assert forall i :: 0 <= i < |rows| ==> pages.ep[i] in pages.ep;
    var macros := ReadMacros(f, ix.value, hash, pages, rows, ms);
    r := Some((pages, macros));
  }

  lemma OpenedSize(f: Str)
    requires Opens(f)
    ensures |f| <= INT32_MAX
  {
  }

  lemma PageCount(f: Str, ix: Index)
    requires IndexOf(ix, f)
    ensures ix.npages == MapInt(f, 16)
  {
  }

  /*** writing and reading back *********************************************/

  lemma SortedNoRepeats(r: seq<Str>, l: seq<Str>, ie: nat)
    requires multiset(r) == multiset(l) && ie != DBP_FILE && NoRepeats(l, ie)
    ensures NoRepeats(r, ie) && |r| == |l|
  {
    DifferentOnce(l);
    SameElements(r, l);
    forall i, j | 0 <= i < j < |r|
      ensures r[i] != r[j]
    {
      OnceDifferent(r, i, j);
    }
  }

  lemma SortedFieldOk(r: seq<Str>, l: seq<Str>)
    requires multiset(r) == multiset(l) && ListOk(l)
    ensures ListOk(r)
  {
    SameElements(r, l);
    SortedListOk(r, l);
  }

  // Sorting keeps pages well-formed.
  lemma SortedBuilt(row: Row, row0: Row)
    requires Built(row0) && RowShape(row) && forall ie :: 0 <= ie < DBP_MAX ==> FieldSorted(row[ie], row0[ie], ie)
    ensures Built(row)
  {
    hide NameLeq, LexLeq;
    forall ie | 0 <= ie < DBP_MAX
      ensures FieldOk(row[ie]) && (row[ie].Strings? ==>
              row0[ie].Strings? && |row[ie].l| == |row0[ie].l| && NoRepeats(row[ie].l, ie))
    {
      assert FieldSorted(row[ie], row0[ie], ie);
      if row0[ie].Strings? && ie <= DBP_ARCH {
        SortedNoRepeats(row[ie].l, row0[ie].l, ie);
        SortedFieldOk(row[ie].l, row0[ie].l);
      }
    }
  }

  // Every reference that is written is that of a live page.
  lemma {:induction false} RefsAreRecords(ps: seq<Page>, at: map<Page, nat>, lv: seq<Page>, tbl: seq<Page>)
    requires AtRecords(at, lv, tbl) && forall p :: p in at ==> at[p] <= INT32_MAX
    ensures RefsOk(Refs(ps, at), |lv|)
  {
    if ps != [] {
      var p := ps[|ps| - 1];
      RefsAreRecords(ps[..|ps| - 1], at, lv, tbl);
      if p in at && at[p] != 0 {
        var i :| 0 <= i < |lv| && lv[i] == p;
        PageIndexInverts(i);
      }
    }
  }

  // Macro values are nonempty strings.
  ghost predicate ContentOk(c: Content) {
    forall k :: k in c ==> k != [] && NoNul(k)
  }

  lemma TabulatedOk(vs: seq<Value>, c: Content, at: map<Page, nat>, lv: seq<Page>, tbl: seq<Page>)
    requires Tabulates(vs, RefMapOf(c, at))
    requires AtRecords(at, lv, tbl) && forall p :: p in at ==> at[p] <= INT32_MAX
    requires ContentOk(c)
    ensures ValuesOk(vs, |lv|)
  {
    hide LexLeq, Refs;
    forall i | 0 <= i < |vs|
      ensures vs[i].key != [] && NoNul(vs[i].key) && RefsOk(vs[i].refs, |lv|)
    {
      assert vs[i].key in c;
      RefsAreRecords(c[vs[i].key], at, lv, tbl);
    }
  }

  // Those of these pages that are live.
  ghost function Kept(ps: seq<Page>, lv: seq<Page>): seq<Page> {
    if ps == [] then []
    else
      var p, r := ps[|ps| - 1], Kept(ps[..|ps| - 1], lv);
      if p in lv then r + [p] else r
  }

  // Each live page lv[x] has become the page back[x].
  ghost predicate Renamed(ps: seq<Page>, kept: seq<Page>, lv: seq<Page>, back: seq<Page>)
    requires |back| == |lv|
  {
    && |ps| == |kept|
    && (forall j, x :: 0 <= j < |kept| && 0 <= x < |lv| && lv[x] == kept[j] ==> ps[j] == back[x])
    && (forall j :: 0 <= j < |kept| ==> kept[j] in lv)
  }

  // The macro table m contains, of the values in c, those that occur in a
  // live page, with the live pages where they occur, in the same order.
  ghost predicate Survives(m: map<Str, MacroEntry>, c: Content, lv: seq<Page>, back: seq<Page>)
    requires |back| == |lv|
    reads m.Values
  {
    && (forall k :: k in m <==> k in c && Kept(c[k], lv) != [])
    && (forall k {:trigger m[k]} :: k in m ==> m[k] in m.Values && Renamed(m[k].pages, Kept(c[k], lv), lv, back))
  }

  lemma {:induction false} RefsKept(ps: seq<Page>, at: map<Page, nat>, lv: seq<Page>, tbl: seq<Page>)
    requires AtRecords(at, lv, tbl)
    ensures |Refs(ps, at)| == |Kept(ps, lv)|
    ensures forall j :: 0 <= j < |Kept(ps, lv)| ==>
            Kept(ps, lv)[j] in lv && Kept(ps, lv)[j] in at && Refs(ps, at)[j] == at[Kept(ps, lv)[j]]
  {
    if ps != [] {
      RefsKept(ps[..|ps| - 1], at, lv, tbl);
    }
  }

  lemma PagesAtRenamed(ps: seq<Page>, at: map<Page, nat>, lv: seq<Page>, tbl: seq<Page>, back: seq<Page>)
    requires AtRecords(at, lv, tbl) && |back| == |lv| && RefsOk(Refs(ps, at), |back|)
    ensures Renamed(PagesAt(back, Refs(ps, at)), Kept(ps, lv), lv, back)
  {
    RefsKept(ps, at, lv, tbl);
    forall j, x | 0 <= j < |Kept(ps, lv)| && 0 <= x < |lv| && lv[x] == Kept(ps, lv)[j]
      ensures PagesAt(back, Refs(ps, at))[j] == back[x]
    {
      PageIndexInverts(x);
    }
  }

  lemma ContentSurvives(vs: seq<Value>, c: Content, at: map<Page, nat>, lv: seq<Page>, tbl: seq<Page>,
                        m: map<Str, MacroEntry>, back: seq<Page>)
    requires Tabulates(vs, RefMapOf(c, at)) && AtRecords(at, lv, tbl) && |back| == |lv|
    requires forall i :: 0 <= i < |vs| ==> RefsOk(vs[i].refs, |back|)
    requires Holds(m, ContentOf(vs, back))
    ensures Survives(m, c, lv, back)
  {
    hide LexLeq, Renamed, RefsOk, AtRecords, Tabulates, ContentOf, Refs, Kept, RefMapOf;
    ContentValues(vs, c, at, back);
    forall k | k in c
      ensures k in m <==> Kept(c[k], lv) != []
    {
      RefsKept(c[k], at, lv, tbl);
    }
    forall k | k in m
      ensures Renamed(m[k].pages, Kept(c[k], lv), lv, back)
    {
      PagesAtRenamed(c[k], at, lv, tbl, back);
    }
  }

  // The values that are written, with their pages after reading.
  lemma ContentValues(vs: seq<Value>, c: Content, at: map<Page, nat>, back: seq<Page>)
    requires Tabulates(vs, RefMapOf(c, at)) && forall i :: 0 <= i < |vs| ==> RefsOk(vs[i].refs, |back|)
    ensures forall k :: k in ContentOf(vs, back) <==> k in c && Refs(c[k], at) != []
    ensures forall k :: k in ContentOf(vs, back) ==>
            RefsOk(Refs(c[k], at), |back|) && ContentOf(vs, back)[k] == PagesAt(back, Refs(c[k], at))
  {
    hide LexLeq, RefsOk, Refs, ContentOf;
    ContentIs(vs, back);
    forall k | k in c && Refs(c[k], at) != []
      ensures exists i :: 0 <= i < |vs| && vs[i].key == k
    {
      assert k in Keys(vs);
      var i :| 0 <= i < |vs| && Keys(vs)[i] == k;
    }
  }

  // What was written is well-formed.
  lemma WrittenWell(rows: seq<Row>, rows0: seq<Row>, ms: seq<seq<Value>>, cs: seq<Content>, at: map<Page, nat>,
      lv: seq<Page>, tbl: seq<Page>)
    requires RowsSorted(rows, rows0) && Shaped(rows) && |rows| == |lv|
             && (forall i :: 0 <= i < |rows0| ==> Built(rows0[i]))
    requires AtRecords(at, lv, tbl) && forall p :: p in at ==> at[p] <= INT32_MAX
    requires |ms| == |cs| == MACRO_MAX && forall i :: 0 <= i < MACRO_MAX ==> Tabulates(ms[i], RefMapOf(cs[i], at))
    requires forall i :: 0 <= i < |cs| ==> ContentOk(cs[i])
    ensures WellFormed(rows, ms)
  {
    hide Tabulates, AtRecords, Built, FieldSorted, ValuesOk;
    forall i | 0 <= i < |rows|
      ensures Built(rows[i])
    {
      SortedBuilt(rows[i], rows0[i]);
    }
    forall i | 0 <= i < MACRO_MAX
      ensures ValuesOk(ms[i], |rows|)
    {
      TabulatedOk(ms[i], cs[i], at, lv, tbl);
    }
  }

  lemma ContentsOk(tables: seq<MacroTable>, cs: seq<Content>, tbl: seq<Page>)
    requires TablesOk(tables, cs, tbl)
    ensures forall i :: 0 <= i < |cs| ==> ContentOk(cs[i])
  {
    forall i | 0 <= i < |cs|
      ensures ContentOk(cs[i])
    {
      assert TableOk(tables[i]) && Holds(tables[i].m, cs[i]);
      assert forall k :: k in cs[i] ==> k in tables[i].m;
    }
  }

  // The pages and macros that come back: the strings of each page in the
  // order of the writer, and the references that are left of those in cs.
  ghost predicate Restored(pages: DbaArray<Page>, macros: DbaArray<MacroTable>, rows0: seq<Row>, cs: seq<Content>,
      lv: seq<Page>)
    reads pages, pages.ep, macros, macros.ep
    reads set i | 0 <= i < |macros.ep| :: macros.ep[i].t
    reads set i, e | 0 <= i < |macros.ep| && e in macros.ep[i].m.Values :: e
  {
    && PagesOk(pages) && |pages.ep| == |rows0| == |lv| == |pages.em|
    && (forall i :: 0 <= i < |rows0| ==> pages.em[i] == 0 && RowShape(pages.ep[i].ep) && RowShape(rows0[i]))
    && (forall i, ie :: 0 <= i < |rows0| && 0 <= ie < DBP_MAX ==>
          FieldSorted(pages.ep[i].ep[ie], rows0[i][ie], ie))
    && |macros.ep| == MACRO_MAX == |cs|
    && (forall im :: 0 <= im < MACRO_MAX ==>
          TableOk(macros.ep[im]) && Survives(macros.ep[im].m, cs[im], lv, pages.ep))
  }

  // Read a file that has been written.
  method ReadWritten(f: Str, hash: Str -> Hash, ghost rows: seq<Row>, ghost ms: seq<seq<Value>>, ghost rows0: seq<Row>,
      ghost cs: seq<Content>, ghost lv: seq<Page>, ghost tbl: seq<Page>)
    returns (r: Option<(DbaArray<Page>, DbaArray<MacroTable>)>)
    requires |rows| == |lv| && RowsSorted(rows, rows0) && Shaped(rows)
             && (forall i :: 0 <= i < |rows0| ==> Built(rows0[i]))
    requires |cs| == MACRO_MAX && ms == MacroValues(cs, lv, tbl) && (forall i :: 0 <= i < |cs| ==> ContentOk(cs[i]))
    requires AtRecords(RecordsAt(lv, tbl), lv, tbl)
             && (forall p :: p in RecordsAt(lv, tbl) ==> RecordsAt(lv, tbl)[p] <= INT32_MAX)
    requires f == FileBytes(rows, ms)
    ensures r.Some? <==> |f| <= INT32_MAX
    ensures r.Some? ==> fresh(r.value.0) && fresh(r.value.1) && Restored(r.value.0, r.value.1, rows0, cs, lv)
  {
    hide FileBytes, Tabulates, AtRecords, PagesOk, PageOk, FieldSorted, Built, Survives, WellFormed;
    hide Refs, LiveFrom, TableOk, TablesHold, RefMapOf, RecordsAt, Restored, RowsSorted, MacroValues;
    MacroValuesCount(cs, lv, tbl);
    ghost var at := RecordsAt(lv, tbl);
    WrittenWell(rows, rows0, ms, cs, at, lv, tbl);
    if |f| <= INT32_MAX {
      WrittenOpens(rows, ms);
    }
    r := Read(f, hash, rows, ms);
    if r.None? {
      return;
    }
    OpenedSize(f);
    var pages, macros := r.value.0, r.value.1;
    TablesHoldEach(macros.ep, ms, pages.ep, MACRO_MAX);
    forall im | 0 <= im < MACRO_MAX
      ensures TableOk(macros.ep[im]) && Survives(macros.ep[im].m, cs[im], lv, pages.ep)
    {
      assert TableHolds(macros.ep[im], ms[im], pages.ep);
      ContentSurvives(ms[im], cs[im], at, lv, tbl, macros.ep[im].m, pages.ep);
    }
    Restoring(pages, macros, rows, rows0, cs, lv);
  }

  lemma MacroValuesCount(cs: seq<Content>, lv: seq<Page>, tbl: seq<Page>)
    ensures |MacroValues(cs, lv, tbl)| == |cs|
  {
  }

  lemma Restoring(pages: DbaArray<Page>, macros: DbaArray<MacroTable>, rows: seq<Row>, rows0: seq<Row>,
      cs: seq<Content>, lv: seq<Page>)
    requires PagesOk(pages) && |pages.ep| == |rows| == |lv| && RowsSorted(rows, rows0)
    requires forall i :: 0 <= i < |rows| ==> pages.ep[i].ep == rows[i] && pages.em[i] == 0
    requires |macros.ep| == MACRO_MAX == |cs|
    requires forall im :: 0 <= im < MACRO_MAX ==>
               TableOk(macros.ep[im]) && Survives(macros.ep[im].m, cs[im], lv, pages.ep)
    ensures Restored(pages, macros, rows0, cs, lv)
  {
    hide TableOk, Survives, FieldSorted, PageOk;
  }

  // Write a database and read it back.  With the macro tables ending at the
  // position end, it is written exactly if this position fits into 32 bits,
  // and read exactly if the size of the file does; as the end is a multiple
  // of four, there is one size of files that cannot be read.
  method WriteAndRead(st: Stream, pages: DbaArray<Page>, macros: DbaArray<MacroTable>, hash: Str -> Hash,
                      ghost lv: seq<Page>, ghost rows0: seq<Row>, ghost ems0: seq<seq<int>>, ghost cs: seq<Content>)
    returns (written: bool, r: Option<(DbaArray<Page>, DbaArray<MacroTable>)>)
    requires Writable(pages, macros, cs)
    requires st.Valid() && st.buf == [] && st != (pages as object) && st != (macros as object) && Apart(pages.ep, st)
    requires lv == DbaArrays.Live(pages.ep, pages.em) && Snapshot(lv, rows0, ems0)
    requires forall i :: 0 <= i < |rows0| ==> Built(rows0[i])
    modifies st, pages`ec, lv`ep, lv`em, lv`pos, macros`em, macros`pos
    ensures
      && Shaped(rows0)
      && var end := EndPos(rows0, MacroValues(cs, lv, pages.ep));
      && (written <==> end < INT32_MAX) && (r.Some? <==> end < INT32_MAX - 3)
      && (written && r.None? <==> end == INT32_MAX - 3)
      && if written then |st.buf| == end + 4 else |st.buf| >= INT32_MAX
    ensures r.Some? ==> fresh(r.value.0) && fresh(r.value.1) && Restored(r.value.0, r.value.1, rows0, cs, lv)
  {
    hide FileBytes, AtRecords, Writable, FieldSorted, Built, RefMapOf, RecordsAt;
    hide Snapshot, EndPos, MacroValues, RowsSorted, DbaArrays.Live, Refs, Apart, Restored, RowOk;
    ghost var tbl := pages.ep;
    ContentsWritable(pages, macros, cs);
    ghost var ms := MacroValues(cs, lv, tbl);
    var w, rows, ems := Write(st, pages, macros, lv, rows0, ems0, cs);
    written := w.Some?;
    EndAligned(rows0, ms);
    if !written {
      return written, None;
    }
    SnapshotLength(lv, rows, ems);
    WrittenSize(rows, rows0, ms);
    r := ReadWritten(st.buf, hash, rows, ms, rows0, cs, lv, tbl);
  }

  lemma WrittenSize(rows: seq<Row>, rows0: seq<Row>, ms: seq<seq<Value>>)
    requires RowsSorted(rows, rows0)
    ensures Shaped(rows) && |FileBytes(rows, ms)| == EndPos(rows0, ms) + 4
  {
    hide FileBytes, PagesBytes, MacrosBytes;
    SortedSizes(rows, rows0);
    SameEnd(rows, rows0, ms);
    FileParts(rows, ms);
  }

  lemma ContentsWritable(pages: DbaArray<Page>, macros: DbaArray<MacroTable>, cs: seq<Content>)
    requires Writable(pages, macros, cs)
    ensures |cs| == MACRO_MAX && forall i :: 0 <= i < |cs| ==> ContentOk(cs[i])
  {
    ContentsOk(macros.ep, cs, pages.ep);
  }

  lemma SnapshotLength(ps: seq<Page>, rows: seq<Row>, ems: seq<seq<int>>)
    requires Snapshot(ps, rows, ems)
    ensures |rows| == |ps|
  {
  }

  /*** writing and searching ***********************************************/

  lemma RefsFineWritten(refs: seq<nat>, n: nat)
    requires RefsOk(refs, n)
    ensures RefsWritten(refs, n)
  {
    forall j | 0 <= j < |refs|
      ensures 20 <= refs[j] <= INT32_MAX && exists p: nat :: p < n && refs[j] == PageAddr(p)
    {
      var p := PageIndex(refs[j]);
      assert p < n && refs[j] == PageAddr(p);
    }
  }

  lemma TabulatedWritten(vs: seq<Value>, refs: RefMap, n: nat)
    requires Tabulates(vs, refs) && ValuesOk(vs, n)
    ensures TableWritten(vs, n)
  {
    hide LexLeq, RefsOk, RefsWritten;
    forall i | 0 <= i < |vs|
      ensures RefsWritten(vs[i].refs, n)
    {
      RefsFineWritten(vs[i].refs, n);
    }
  }

  // In the file, the strings of each page and the values of each macro are in
  // order.
  lemma FileInOrder(rows: seq<Row>, rows0: seq<Row>, cs: seq<Content>, lv: seq<Page>, tbl: seq<Page>)
    requires RowsSorted(rows, rows0) && forall i :: 0 <= i < |rows0| ==> RowOk(rows0[i])
    requires forall i :: 0 <= i < |rows0| ==> Masked(rows0[i][DBP_NAME].l)
    ensures forall i :: 0 <= i < |rows| ==> RowShape(rows[i]) && PageInOrder(rows[i], rows0[i])
    ensures forall im, i, j :: 0 <= im < |cs| && 0 <= i < j < |MacroValues(cs, lv, tbl)[im]| ==>
              Alphabetical(MacroValues(cs, lv, tbl)[im][i].key, MacroValues(cs, lv, tbl)[im][j].key)
  {
    hide FieldSorted, Alphabetical, Folded, MacroValues, Tabulates;
    forall i | 0 <= i < |rows|
      ensures PageInOrder(rows[i], rows0[i])
    {
      PageSorted(rows[i], rows0[i]);
    }
    forall im | 0 <= im < |cs|
      ensures forall i, j :: 0 <= i < j < |MacroValues(cs, lv, tbl)[im]| ==>
                Alphabetical(MacroValues(cs, lv, tbl)[im][i].key, MacroValues(cs, lv, tbl)[im][j].key)
    {
      ValuesInOrder(MacroValues(cs, lv, tbl)[im], RefMapOf(cs[im], RecordsAt(lv, tbl)));
    }
  }

  lemma NotSorted(f: Field, f0: Field, ie: nat)
    requires FieldSorted(f, f0, ie)
    ensures if f0.Strings? then f.Strings? else f == f0
  {
  }

  // Each name has a mask byte.
  predicate Masked(names: seq<Str>) {
    forall j :: 0 <= j < |names| ==> names[j] != [] && names[j][0] < 128
  }

  ghost predicate PageInOrder(row: Row, row0: Row)
    requires RowShape(row) && RowShape(row0)
  {
    var names, sects := row[DBP_NAME].l, row[DBP_SECT].l;
    && multiset(names) == multiset(row0[DBP_NAME].l) && multiset(sects) == multiset(row0[DBP_SECT].l)
    && (forall j, k :: 0 <= j < k < |names| ==>
          && names[j] != [] && names[k] != []
          && (names[j][0] > names[k][0]
          || (names[j][0] == names[k][0] && Alphabetical(Folded(names[j][1..]), Folded(names[k][1..])))))
    && (forall j, k :: 0 <= j < k < |sects| ==> Alphabetical(sects[j], sects[k]))
    && (row[DBP_ARCH].Null? <==> row0[DBP_ARCH].Null?)
    && (row[DBP_ARCH].Strings? ==>
          && multiset(row[DBP_ARCH].l) == multiset(row0[DBP_ARCH].l)
          && forall j, k :: 0 <= j < k < |row[DBP_ARCH].l| ==> Alphabetical(row[DBP_ARCH].l[j], row[DBP_ARCH].l[k]))
    && row[DBP_DESC] == row0[DBP_DESC] && row[DBP_FILE] == row0[DBP_FILE]
  }

  lemma PageSorted(row: Row, row0: Row)
    requires RowShape(row) && RowOk(row0) && forall ie :: 0 <= ie < DBP_MAX ==> FieldSorted(row[ie], row0[ie], ie)
    requires Masked(row0[DBP_NAME].l)
    ensures PageInOrder(row, row0)
  {
    hide Alphabetical, Folded, FieldSorted;
    assert FieldOk(row0[DBP_NAME]) && FieldOk(row0[DBP_SECT]) && FieldOk(row0[DBP_ARCH]) && FieldOk(row0[DBP_FILE]);
    NotSorted(row[DBP_DESC], row0[DBP_DESC], DBP_DESC);
    NotSorted(row[DBP_ARCH], row0[DBP_ARCH], DBP_ARCH);
    FieldInOrder(row[DBP_NAME], row0[DBP_NAME], DBP_NAME);
    FieldInOrder(row[DBP_SECT], row0[DBP_SECT], DBP_SECT);
    FieldInOrder(row[DBP_FILE], row0[DBP_FILE], DBP_FILE);
    if row0[DBP_ARCH].Strings? {
      FieldInOrder(row[DBP_ARCH], row0[DBP_ARCH], DBP_ARCH);
    }
  }

  // The iterations of dbm.c can be used on what dba_write() wrote, provided
  // that each page has a name and a section.
  lemma WrittenSearchable(rows: seq<Row>, rows0: seq<Row>, ms: seq<seq<Value>>, cs: seq<Content>, at: map<Page, nat>)
    requires WellFormed(rows, ms) && RowsSorted(rows, rows0) && |FileBytes(rows, ms)| <= INT32_MAX
    requires |cs| == MACRO_MAX && forall i :: 0 <= i < MACRO_MAX ==> Tabulates(ms[i], RefMapOf(cs[i], at))
    requires forall i :: 0 <= i < |rows0| ==> rows0[i][DBP_NAME].l != [] && rows0[i][DBP_SECT].l != []
    ensures Database(FileBytes(rows, ms), rows, ms) && NamesSorted(rows)
  {
    hide FileBytes, Tabulates, ValuesOk, NameLeq, LexLeq, TableWritten;
    forall i | 0 <= i < |rows|
      ensures RowOk(rows[i]) && rows[i][DBP_NAME].l != [] && rows[i][DBP_SECT].l != []
      ensures Ordered(rows[i][DBP_NAME].l, NameLeq)
    {
      assert FieldSorted(rows[i][DBP_NAME], rows0[i][DBP_NAME], DBP_NAME);
      assert FieldSorted(rows[i][DBP_SECT], rows0[i][DBP_SECT], DBP_SECT);
      SameElements(rows[i][DBP_NAME].l, rows0[i][DBP_NAME].l);
      SameElements(rows[i][DBP_SECT].l, rows0[i][DBP_SECT].l);
    }
    forall im | 0 <= im < MACRO_MAX
      ensures TableWritten(ms[im], |rows|)
    {
      TabulatedWritten(ms[im], RefMapOf(cs[im], at), |rows|);
    }
  }
}
