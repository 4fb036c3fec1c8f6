// Pages of the database in memory, and writing the pages table:
// userland/mandoc/dba.c.
module DbaPages {
  import opened Bytes
  import opened DbaArrays
  import opened DbaWrite
  import opened Layout
  import opened Options
  import opened Order
  import opened Sizes

  type Page = DbaArray<Field>

  ghost predicate PageOk(p: Page)
    reads p
  {
    p.Valid() && |p.ep| == DBP_MAX && RowOk(p.ep) && forall ie :: 0 <= ie < DBP_MAX ==> 0 <= p.em[ie] <= INT32_MAX
  }

  ghost predicate AllOk(ps: seq<Page>)
    reads ps
  {
    forall i {:trigger ps[i]} :: 0 <= i < |ps| ==> PageOk(ps[i])
  }

  ghost predicate Distinct(ps: seq<Page>) {
    forall i, j :: 0 <= i < j < |ps| ==> ps[i] != ps[j]
  }

  // No page is the object o.
  ghost predicate Apart(ps: seq<Page>, o: object) {
    forall i {:trigger ps[i]} :: 0 <= i < |ps| ==> o != (ps[i] as object)
  }

  // A table of pages, each of them a separate object.
  ghost predicate PagesOk(pages: DbaArray<Page>)
    reads pages, pages.ep
  {
    pages.Valid() && Distinct(pages.ep) && Apart(pages.ep, pages) && AllOk(pages.ep)
  }

  // The order in which the writer leaves the strings of entry ie.
  ghost predicate FieldSorted(f: Field, f0: Field, ie: nat) {
    match f0
    case Strings(l) =>
      f.Strings? &&
      (if ie == DBP_NAME then SortedVersion(f.l, l, NameLeq)
       else if ie == DBP_SECT || ie == DBP_ARCH then SortedVersion(f.l, l, LexLeq)
       else f.l == l)
    case _ => f == f0
  }

  // The strings of an entry stay the same ones, the names in the order of
  // their masks, those with the same mask in alphabetical order without regard
  // to case, the sections and architectures in alphabetical order, and the
  // files as they were.
  lemma FieldInOrder(f: Field, f0: Field, ie: nat)
    requires FieldSorted(f, f0, ie) && f0.Strings? && ListOk(f0.l)
    requires ie == DBP_NAME ==> forall i :: 0 <= i < |f0.l| ==> f0.l[i] != [] && f0.l[i][0] < 128
    ensures f.Strings? && multiset(f.l) == multiset(f0.l) && (ie == DBP_FILE ==> f == f0)
    ensures ie == DBP_SECT || ie == DBP_ARCH ==> forall j, k :: 0 <= j < k < |f.l| ==> Alphabetical(f.l[j], f.l[k])
    ensures ie == DBP_NAME ==> forall j, k :: 0 <= j < k < |f.l| ==>
              && f.l[j] != [] && f.l[k] != []
              && (f.l[j][0] > f.l[k][0]
              || (f.l[j][0] == f.l[k][0] && Alphabetical(Folded(f.l[j][1..]), Folded(f.l[k][1..]))))
  {
    hide LexLeq, NameLeq, Alphabetical, Folded;
    SameElements(f.l, f0.l);
    forall j | 0 <= j < |f.l|
      ensures f.l[j] != [] && (ie == DBP_NAME ==> f.l[j][0] < 128)
    {
      assert f.l[j] in f0.l;
    }
    forall j, k | 0 <= j < k < |f.l|
      ensures ie == DBP_SECT || ie == DBP_ARCH ==> Alphabetical(f.l[j], f.l[k])
      ensures ie == DBP_NAME ==>
                f.l[j][0] > f.l[k][0]
                || (f.l[j][0] == f.l[k][0] && Alphabetical(Folded(f.l[j][1..]), Folded(f.l[k][1..])))
    {
      if ie == DBP_NAME {
        NamesByMask(f.l[j], f.l[k]);
      } else {
        LexIsAlphabetical(f.l[j], f.l[k]);
      }
    }
  }

  // Write a list of strings.
  method WriteList(st: Stream, l: seq<Str>)
    requires st.Valid() && ListOk(l)
    modifies st
    ensures st.Valid() && st.pos == old(st.pos) + |ListBytes(l)|
    ensures st.buf == Put(old(st.buf), old(st.pos), ListBytes(l))
  {
    ghost var b, p, items := st.buf, st.pos, StrItems(l);
    PutNothing(b, p);
    for i := 0 to |l|
      invariant st.Valid() && st.pos == p + |Flatten(items[..i])|
      invariant st.buf == Put(b, p, Flatten(items[..i]))
    {
      st.StrWrite(l[i]);
      PutTwice(b, p, Flatten(items[..i]), StrBytes(l[i]));
      assert items[..i + 1][..i] == items[..i];
    }
    assert items[..|l|] == items;
    st.CharWrite(0);
    PutTwice(b, p, Flatten(items), [0]);
  }

  lemma SortedListOk(r: seq<Str>, s: seq<Str>)
    requires ListOk(s) && forall x :: x in r ==> x in s
    ensures ListOk(r)
  {
    forall i | 0 <= i < |r|
      ensures r[i] != [] && NoNul(r[i])
    {
      assert r[i] in s;
    }
  }

  // Names, sections and architectures are sorted before writing them.
  method SortField(l: seq<Str>, ie: nat) returns (r: seq<Str>)
    requires ListOk(l)
    ensures ListOk(r) && FieldSorted(Strings(r), Strings(l), ie)
  {
    r := l;
    if ie == DBP_NAME {
      NamesComparable(l);
      r := Sort(l, NameLeq);
      SameElements(r, l);
    } else if ie == DBP_SECT || ie == DBP_ARCH {
      StringsComparable(l);
      r := Sort(l, LexLeq);
      SameElements(r, l);
    }
    SortedListOk(r, l);
  }

  // Entry ie of a page was sorted and written at offset at, and that is all
  // that has changed.
  ghost predicate Written(row: Row, em: seq<int>, row0: Row, em0: seq<int>, ie: nat, at: nat) {
    && ie < |row| == |row0| && ie < |em| == |em0|
    && row == row0[ie := row[ie]] && FieldSorted(row[ie], row0[ie], ie)
    && em == em0[ie := if row[ie].Null? then 0 else at]
  }

  // Note where entry ie of a page starts, sort it if needed, and write it.
  method WriteField(st: Stream, page: Page, ie: nat) returns (r: Option<()>)
    requires st.Valid() && st.pos == |st.buf| && PageOk(page) && ie < DBP_MAX && st != (page as object)
    modifies st, page`ep, page`em
    ensures st.Valid()
    ensures r.None? ==> |st.buf| >= INT32_MAX && old(|st.buf|) >= INT32_MAX
    ensures r.Some? ==>
              && PageOk(page) && st.pos == |st.buf| && st.buf == old(st.buf) + FieldBytes(page.ep[ie])
              && Written(page.ep, page.em, old(page.ep), old(page.em), ie, old(|st.buf|))
  {
    hide Put, FieldSorted, ListOk, NoNul, ListBytes;
    if page.ep[ie].Null? {
      page.SetPos(ie, 0);
      NullSorted(page.ep[ie], ie);
    } else {
      var p :- st.Tell();
      page.SetPos(ie, p);
      if page.ep[ie].Text? {
        PutAppends(st.buf, StrBytes(page.ep[ie].s));
        NullSorted(page.ep[ie], ie);
        st.StrWrite(page.ep[ie].s);
      } else {
        var l := SortField(page.ep[ie].l, ie);
        page.ep := page.ep[ie := Strings(l)];
        PutAppends(st.buf, ListBytes(l));
        WriteList(st, l);
      }
    }
    r := Some(());
  }

  lemma NullSorted(f: Field, ie: nat)
    requires !f.Strings?
    ensures FieldSorted(f, f, ie)
  {
  }

  /*** iterating over the live pages *************************************/

  // Iteration over a is at the k-th of the live entries with indices ix.
  ghost predicate AtLive<T>(a: DbaArray<T>, ix: seq<nat>, k: nat)
    reads a
  {
    && a.Valid() && k <= |ix|
    && (forall x :: 0 <= x < |ix| ==> ix[x] < |a.ep|)
    && (if k < |ix| then a.ec == ix[k] && LiveFrom(a.em, a.ec + 1) == ix[k + 1..]
        else a.ec == |a.ep|)
  }

  // dba_array_FOREACH: start with the first live entry.
  method FirstLive<T>(a: DbaArray<T>) returns (r: Option<T>)
    requires a.Valid()
    modifies a`ec
    ensures AtLive(a, LiveFrom(a.em, 0), 0)
    ensures r == if LiveFrom(a.em, 0) == [] then None else Some(a.ep[LiveFrom(a.em, 0)[0]])
  {
    LiveFromLists(a.em, 0);
    a.Start();
    r := a.Next();
  }

  // dba_array_FOREACH: go on with the next live entry.
  method NextLive<T>(a: DbaArray<T>, ghost ix: seq<nat>, ghost k: nat) returns (r: Option<T>)
    requires AtLive(a, ix, k) && k < |ix|
    modifies a`ec
    ensures AtLive(a, ix, k + 1)
    ensures r == if k + 1 < |ix| then Some(a.ep[ix[k + 1]]) else None
  {
    r := a.Next();
    if k + 1 < |ix| {
      assert ix[k + 1..][1..] == ix[k + 2..];
    }
  }

  // Each live page is a different object of the table.
  lemma LivesDistinct(pages: DbaArray<Page>)
    requires PagesOk(pages)
    ensures forall k :: 0 <= k < |Live(pages.ep, pages.em)| ==> Live(pages.ep, pages.em)[k] in pages.ep
    ensures Distinct(Live(pages.ep, pages.em))
  {
    LiveFromLists(pages.em, 0);
  }

  // The entries and positions of these pages.
  ghost predicate Snapshot(ps: seq<Page>, rows: seq<Row>, ems: seq<seq<int>>)
    reads ps
  {
    && |rows| == |ems| == |ps|
    && forall i :: 0 <= i < |ps| ==> ps[i].ep == rows[i] && ps[i].em == ems[i]
  }

  // Entry ie of each page was written, one page after the other from offset o.
  ghost predicate ColumnWritten(rows: seq<Row>, ems: seq<seq<int>>, rows0: seq<Row>, ems0: seq<seq<int>>,
                                ie: nat, items: seq<Str>, o: nat)
    requires ie < DBP_MAX
  {
    && |rows| == |ems| == |rows0| == |ems0| >= |items|
    && (forall i :: 0 <= i < |items| ==> Written(rows[i], ems[i], rows0[i], ems0[i], ie, o + Offset(items, i)))
    && (forall i :: 0 <= i < |items| ==> ie < |rows[i]| && items[i] == FieldBytes(rows[i][ie]))
    && (forall i :: |items| <= i < |rows| ==> rows[i] == rows0[i] && ems[i] == ems0[i])
  }

  lemma ColumnNext(rows: seq<Row>, ems: seq<seq<int>>, rows0: seq<Row>, ems0: seq<seq<int>>,
                   ie: nat, items: seq<Str>, o: nat, row: Row, em: seq<int>)
    requires ie < DBP_MAX && ColumnWritten(rows, ems, rows0, ems0, ie, items, o) && |items| < |rows|
    requires ie < |row| && Written(row, em, rows[|items|], ems[|items|], ie, o + |Flatten(items)|)
    ensures Flatten(items + [FieldBytes(row[ie])]) == Flatten(items) + FieldBytes(row[ie])
    ensures ColumnWritten(rows[|items| := row], ems[|items| := em], rows0, ems0, ie, items + [FieldBytes(row[ie])], o)
  {
    hide Written, Flatten, FieldBytes, Offset;
    var item, k := FieldBytes(row[ie]), |items|;
    FlattenSnoc(items, item);
    assert rows[k] == rows0[k] && ems[k] == ems0[k];
    var rows', ems', items' := rows[k := row], ems[k := em], items + [item];
    forall i | 0 <= i < |items'|
      ensures Written(rows'[i], ems'[i], rows0[i], ems0[i], ie, o + Offset(items', i))
    {
      if i < k {
        assert rows'[i] == rows[i] && ems'[i] == ems[i] && Offset(items', i) == Offset(items, i);
      } else {
        assert rows'[i] == row && ems'[i] == em;
      }
    }
    forall i | 0 <= i < |items'|
      ensures ie < |rows'[i]| && items'[i] == FieldBytes(rows'[i][ie])
    {
      if i < k {
        assert rows'[i] == rows[i] && items'[i] == items[i];
      }
    }
  }

  lemma MemberOk(ps: seq<Page>, p: Page, o: object)
    requires AllOk(ps) && Apart(ps, o) && p in ps
    ensures PageOk(p) && o != (p as object)
  {
  }

  lemma SnapshotShaped(ps: seq<Page>, lv: seq<Page>, rows: seq<Row>, ems: seq<seq<int>>)
    requires AllOk(ps) && Snapshot(lv, rows, ems) && forall p :: p in lv ==> p in ps
    ensures RowsOk(rows) && Shaped(rows)
  {
    forall i | 0 <= i < |lv|
      ensures PageOk(lv[i])
    {
      assert lv[i] in ps;
    }
  }

  // Write entry ie of the next live page lv[|items|] of the table tbl.
  method WriteNext(st: Stream, page: Page, ie: nat, ghost tbl: seq<Page>, ghost lv: seq<Page>,
                   ghost rows: seq<Row>, ghost ems: seq<seq<int>>, ghost rows0: seq<Row>, ghost ems0: seq<seq<int>>,
                   ghost items: seq<Str>, ghost o: nat)
    returns (r: Option<()>)
    requires st.Valid() && st.pos == |st.buf| && ie < DBP_MAX
    requires Distinct(lv) && AllOk(tbl) && Apart(tbl, st) && (forall p :: p in lv ==> p in tbl)
    requires Snapshot(lv, rows, ems) && |items| < |lv| && page == lv[|items|]
    requires ColumnWritten(rows, ems, rows0, ems0, ie, items, o) && |st.buf| == o + |Flatten(items)|
    modifies st, page`ep, page`em
    ensures st.Valid()
    ensures r.None? ==> |st.buf| >= INT32_MAX && old(|st.buf|) >= INT32_MAX
    ensures r.Some? ==> PageOk(page) && |page.ep| == DBP_MAX
    ensures r.Some? ==>
              var k, item := |items|, FieldBytes(page.ep[ie]);
              && AllOk(tbl) && Snapshot(lv, rows[k := page.ep], ems[k := page.em])
              && st.pos == |st.buf| && st.buf == old(st.buf) + item
              && Flatten(items + [item]) == Flatten(items) + item
              && ColumnWritten(rows[k := page.ep], ems[k := page.em], rows0, ems0, ie, items + [item], o)
  {
    hide FieldBytes, FieldSorted, FieldOk, LiveFrom, Written, ColumnWritten, Flatten;
    MemberOk(tbl, page, st);
    var _ :- WriteField(st, page, ie);
    forall i | 0 <= i < |tbl|
      ensures PageOk(tbl[i])
    {
    }
    ColumnNext(rows, ems, rows0, ems0, ie, items, o, page.ep, page.em);
    r := Some(());
  }

  // Write entry ie of all live pages, one after the other.
  method WriteColumn(st: Stream, pages: DbaArray<Page>, ie: nat,
                     ghost lv: seq<Page>, ghost rows0: seq<Row>, ghost ems0: seq<seq<int>>)
    returns (r: Option<()>, ghost rows: seq<Row>, ghost ems: seq<seq<int>>)
    requires st.Valid() && st.pos == |st.buf| && PagesOk(pages) && ie < DBP_MAX
    requires st != (pages as object) && Apart(pages.ep, st)
    requires lv == Live(pages.ep, pages.em) && Snapshot(lv, rows0, ems0) && Shaped(rows0)
    modifies st, pages`ec, lv`ep, lv`em
    ensures st.Valid()
    ensures r.None? ==> |st.buf| >= INT32_MAX
    ensures r.None? ==> old(|st.buf|) + |Flatten(Column(rows0, ie))| >= INT32_MAX
    ensures r.Some? ==>
              && PagesOk(pages) && Snapshot(lv, rows, ems) && Shaped(rows) && st.pos == |st.buf|
              && st.buf == old(st.buf) + Flatten(Column(rows, ie))
              && ColumnWritten(rows, ems, rows0, ems0, ie, Column(rows, ie), old(|st.buf|))
  {
    hide FieldBytes, FieldSorted, FieldOk, LiveFrom, Written, ColumnWritten, Offset, Flatten, PageOk, Apart, Distinct;
    hide Shaped, RowsOk, Column;
    ghost var ix, items: seq<Str>, b, tbl := LiveFrom(pages.em, 0), [], st.buf, pages.ep;
    rows, ems := rows0, ems0;
    LivesDistinct(pages);
    ColumnStart(rows, ems, ie, |b|);
    var cur := FirstLive(pages);
    while cur.Some?
      invariant |items| <= |lv| && AtLive(pages, ix, |items|)
      invariant cur == if |items| < |ix| then Some(lv[|items|]) else None
      invariant AllOk(tbl) && Snapshot(lv, rows, ems)
      invariant st.Valid() && st.pos == |st.buf| && st.buf == b + Flatten(items)
      invariant ColumnWritten(rows, ems, rows0, ems0, ie, items, |b|)
      decreases |ix| - |items|
    {
      ghost var k := |items|;
      r := WriteNext(st, cur.value, ie, tbl, lv, rows, ems, rows0, ems0, items, |b|);
      if r.None? {
        ColumnPart(rows, ems, rows0, ems0, ie, items, |b|);
        return;
      }
      ghost var row, em := lv[k].ep, lv[k].em;
      ConcatAssociative(b, Flatten(items), FieldBytes(row[ie]));
      cur := NextLive(pages, ix, k);
      items := items + [FieldBytes(row[ie])];
      rows, ems := rows[k := row], ems[k := em];
    }
    SnapshotShaped(tbl, lv, rows, ems);
    ColumnEnd(rows, ems, rows0, ems0, ie, items, |b|);
    r := Some(());
  }

  lemma ColumnStart(rows: seq<Row>, ems: seq<seq<int>>, ie: nat, o: nat)
    requires |rows| == |ems| && ie < DBP_MAX
    ensures ColumnWritten(rows, ems, rows, ems, ie, [], o) && Flatten([]) == []
  {
  }

  lemma SortedSize(f: Field, f0: Field, ie: nat)
    requires FieldSorted(f, f0, ie)
    ensures |FieldBytes(f)| == |FieldBytes(f0)|
  {
    if f0.Strings? {
      hide ListBytes;
      assert multiset(f.l) == multiset(f0.l);
      ListPermuted(f.l, f0.l);
    }
  }

  // What has been written of a column is as large as without sorting.
  lemma ColumnPart(rows: seq<Row>, ems: seq<seq<int>>, rows0: seq<Row>, ems0: seq<seq<int>>,
                   ie: nat, items: seq<Str>, o: nat)
    requires ie < DBP_MAX && Shaped(rows0) && ColumnWritten(rows, ems, rows0, ems0, ie, items, o)
    ensures |Flatten(items)| <= |Flatten(Column(rows0, ie))|
  {
    hide FieldSorted, FieldBytes, Flatten;
    forall i | 0 <= i < |items|
      ensures |items[i]| == |Column(rows0, ie)[i]|
    {
      assert Written(rows[i], ems[i], rows0[i], ems0[i], ie, o + Offset(items, i));
      SortedSize(rows[i][ie], rows0[i][ie], ie);
    }
    FlattenSizes(items, Column(rows0, ie));
  }

  lemma ColumnEnd(rows: seq<Row>, ems: seq<seq<int>>, rows0: seq<Row>, ems0: seq<seq<int>>,
                  ie: nat, items: seq<Str>, o: nat)
    requires ie < DBP_MAX && Shaped(rows)
    requires ColumnWritten(rows, ems, rows0, ems0, ie, items, o) && |items| == |rows|
    ensures items == Column(rows, ie)
  {
  }

  /*** the pages table ***************************************************/

  // The first k columns of the pages table at offset o have been written.
  ghost predicate Progress(rows: seq<Row>, ems: seq<seq<int>>, rows0: seq<Row>, o: nat, k: nat) {
    && k <= DBP_MAX && |rows| == |ems| == |rows0| && Shaped(rows) && Shaped(rows0)
    && (forall i :: 0 <= i < |ems| ==> |ems[i]| == DBP_MAX)
    && (forall i, ie :: 0 <= i < |rows| && 0 <= ie < k ==>
          ems[i][ie] == FieldPos(rows, o, i, ie) && FieldSorted(rows[i][ie], rows0[i][ie], ie))
    && (forall i, ie :: 0 <= i < |rows| && k <= ie < DBP_MAX ==> rows[i][ie] == rows0[i][ie])
  }

  // Writing column k changes none of the columns before it.
  lemma {:induction false} ColumnsStay(rows: seq<Row>, rows': seq<Row>, k: nat, j: nat)
    requires j <= k <= DBP_MAX && |rows| == |rows'| && Shaped(rows) && Shaped(rows')
    requires forall i, ie :: 0 <= i < |rows| && 0 <= ie < k ==> rows'[i][ie] == rows[i][ie]
    ensures Columns(rows', j) == Columns(rows, j)
    ensures j < k ==> Column(rows', j) == Column(rows, j)
  {
    if j < k {
      assert Column(rows', j) == Column(rows, j);
    }
    if j > 0 {
      ColumnsStay(rows, rows', k, j - 1);
    }
  }

  lemma WrittenColumn(rows: seq<Row>, ems: seq<seq<int>>, rows0: seq<Row>, ems0: seq<seq<int>>,
                      k: nat, items: seq<Str>, o: nat, i: nat)
    requires k < DBP_MAX && Shaped(rows) && Shaped(rows0) && |items| == |rows| && i < |rows|
    requires ColumnWritten(rows, ems, rows0, ems0, k, items, o)
    ensures forall ie :: 0 <= ie < DBP_MAX && ie != k ==> rows[i][ie] == rows0[i][ie]
    ensures |ems[i]| == |ems0[i]| && k < |ems[i]|
    ensures forall ie :: 0 <= ie < |ems[i]| && ie != k ==> ems[i][ie] == ems0[i][ie]
    ensures ems[i][k] == if rows[i][k].Null? then 0 else o + Offset(items, i)
    ensures FieldSorted(rows[i][k], rows0[i][k], k)
  {
    assert Written(rows[i], ems[i], rows0[i], ems0[i], k, o + Offset(items, i));
  }

  lemma ProgressNext(rows: seq<Row>, ems: seq<seq<int>>, rows': seq<Row>, ems': seq<seq<int>>,
                     rows0: seq<Row>, o: nat, k: nat)
    requires Progress(rows, ems, rows0, o, k) && k < DBP_MAX && Shaped(rows')
    requires ColumnWritten(rows', ems', rows, ems, k, Column(rows', k), ColumnPos(rows, o, k))
    ensures Progress(rows', ems', rows0, o, k + 1)
    ensures Columns(rows', k + 1) == Columns(rows, k) + Flatten(Column(rows', k))
  {
    hide FieldSorted, ColumnWritten, Columns, Column, Offset;
    assert |rows'| == |rows| == |ems'| by { ColumnWrittenLengths(rows', ems', rows, ems, k, ColumnPos(rows, o, k)); }
    forall i | 0 <= i < |rows|
      ensures |ems'[i]| == DBP_MAX && ems'[i][k] == (if rows'[i][k].Null? then 0
              else ColumnPos(rows, o, k) + Offset(Column(rows', k), i))
      ensures FieldSorted(rows'[i][k], rows0[i][k], k)
      ensures forall ie :: 0 <= ie < DBP_MAX && ie != k ==> rows'[i][ie] == rows[i][ie] && ems'[i][ie] == ems[i][ie]
    {
      WrittenColumn(rows', ems', rows, ems, k, Column(rows', k), ColumnPos(rows, o, k), i);
    }
    forall j | 0 <= j <= k
      ensures Columns(rows', j) == Columns(rows, j)
      ensures j < k ==> Column(rows', j) == Column(rows, j)
    {
      ColumnsStay(rows, rows', k, j);
    }
    ColumnsNext(rows', k);
  }

  lemma ColumnWrittenLengths(rows: seq<Row>, ems: seq<seq<int>>, rows0: seq<Row>, ems0: seq<seq<int>>, k: nat, o: nat)
    requires k < DBP_MAX && Shaped(rows) && ColumnWritten(rows, ems, rows0, ems0, k, Column(rows, k), o)
    ensures |rows| == |ems| == |rows0| == |ems0|
  {
  }

  lemma ColumnsNext(rows: seq<Row>, k: nat)
    requires k < DBP_MAX && Shaped(rows)
    ensures Columns(rows, k + 1) == Columns(rows, k) + Flatten(Column(rows, k))
  {
  }

  // The pages table at offset |b| before its pointers are filled in.
  ghost function Unfilled(b: Str, rows: seq<Row>, k: nat): Str
    requires k <= DBP_MAX && Shaped(rows)
  {
    b + IntBytes(|rows|) + Zeros(20 * |rows|) + Columns(rows, k)
  }

  lemma UnfilledLength(b: Str, rows: seq<Row>, k: nat)
    requires k <= DBP_MAX && Shaped(rows)
    ensures |Unfilled(b, rows, k)| == ColumnPos(rows, |b|, k)
  {
  }

  lemma ProgressStart(rows: seq<Row>, ems: seq<seq<int>>, o: nat)
    requires |rows| == |ems| && Shaped(rows) && forall i :: 0 <= i < |ems| ==> |ems[i]| == DBP_MAX
    ensures Progress(rows, ems, rows, o, 0)
  {
  }

  lemma ColumnAppended(b: Str, rows: seq<Row>, ems: seq<seq<int>>, rows': seq<Row>, ems': seq<seq<int>>,
                       rows0: seq<Row>, k: nat)
    requires k < DBP_MAX && Shaped(rows) && Shaped(rows') && Progress(rows, ems, rows0, |b|, k)
    requires ColumnWritten(rows', ems', rows, ems, k, Column(rows', k), |Unfilled(b, rows, k)|)
    ensures Progress(rows', ems', rows0, |b|, k + 1)
    ensures Unfilled(b, rows', k + 1) == Unfilled(b, rows, k) + Flatten(Column(rows', k))
  {
    hide ColumnWritten, Column, Columns, FieldSorted, Progress;
    UnfilledLength(b, rows, k);
    ProgressNext(rows, ems, rows', ems', rows0, |b|, k);
    ColumnWrittenLengths(rows', ems', rows, ems, k, ColumnPos(rows, |b|, k));
    ConcatAssociative(b + IntBytes(|rows|) + Zeros(20 * |rows|), Columns(rows, k), Flatten(Column(rows', k)));
  }

  // Write the five columns.
  method WriteColumns(st: Stream, pages: DbaArray<Page>,
                      ghost b: Str, ghost lv: seq<Page>, ghost rows0: seq<Row>, ghost ems0: seq<seq<int>>)
    returns (r: Option<()>, ghost rows: seq<Row>, ghost ems: seq<seq<int>>)
    requires st.Valid() && st.pos == |st.buf| && PagesOk(pages)
    requires st != (pages as object) && Apart(pages.ep, st)
    requires lv == Live(pages.ep, pages.em) && Snapshot(lv, rows0, ems0)
    requires Shaped(rows0) && st.buf == Unfilled(b, rows0, 0)
    modifies st, pages`ec, lv`ep, lv`em
    ensures st.Valid()
    ensures r.None? ==> |st.buf| >= INT32_MAX && ColumnPos(rows0, |b|, DBP_MAX) >= INT32_MAX
    ensures r.Some? ==>
              && PagesOk(pages) && Snapshot(lv, rows, ems) && st.pos == |st.buf|
              && Shaped(rows) && Progress(rows, ems, rows0, |b|, DBP_MAX) && st.buf == Unfilled(b, rows, DBP_MAX)
  {
    hide ColumnWritten, Column, Columns, FieldSorted, PageOk, LiveFrom, Live, Progress, ColumnPos, Unfilled;
    rows, ems := rows0, ems0;
    assert AllOk(pages.ep) && forall p :: p in lv ==> p in pages.ep;
    FiveEntries(pages.ep, lv, rows, ems);
    ProgressStart(rows, ems, |b|);
    UnfilledLength(b, rows, 0);
    for ie := 0 to DBP_MAX
      invariant PagesOk(pages) && lv == Live(pages.ep, pages.em) && Snapshot(lv, rows, ems)
      invariant st.Valid() && st.pos == |st.buf|
      invariant Shaped(rows) && Progress(rows, ems, rows0, |b|, ie) && st.buf == Unfilled(b, rows, ie)
    {
      ghost var rows', ems';
      r, rows', ems' := WriteColumn(st, pages, ie, lv, rows, ems);
      if r.None? {
        ProgressSize(b, rows, ems, rows0, ie);
        return;
      }
      ColumnAppended(b, rows, ems, rows', ems', rows0, ie);
      rows, ems := rows', ems';
    }
    r := Some(());
  }

  lemma ProgressSize(b: Str, rows: seq<Row>, ems: seq<seq<int>>, rows0: seq<Row>, k: nat)
    requires Progress(rows, ems, rows0, |b|, k) && Shaped(rows) && Shaped(rows0)
    ensures SameSizes(rows, rows0) && ColumnPos(rows, |b|, DBP_MAX) == ColumnPos(rows0, |b|, DBP_MAX)
    ensures k < DBP_MAX ==>
              |Unfilled(b, rows, k)| + |Flatten(Column(rows, k))| <= ColumnPos(rows0, |b|, DBP_MAX)
  {
    hide FieldSorted, FieldBytes, Column, Columns, FieldPos, ColumnPos, Unfilled, Flatten;
    forall i, ie | 0 <= i < |rows| && 0 <= ie < DBP_MAX
      ensures |FieldBytes(rows[i][ie])| == |FieldBytes(rows0[i][ie])|
    {
      if ie < k {
        SortedSize(rows[i][ie], rows0[i][ie], ie);
      }
    }
    SamePos(rows, rows0, |b|);
    if k < DBP_MAX {
      UnfilledLength(b, rows, k);
      ColumnPosGrows(rows, |b|, k, DBP_MAX);
      ColumnPosGrows(rows, |b|, k + 1, DBP_MAX);
    }
  }

  lemma FiveEntries(ps: seq<Page>, lv: seq<Page>, rows: seq<Row>, ems: seq<seq<int>>)
    requires AllOk(ps) && Snapshot(lv, rows, ems) && forall p :: p in lv ==> p in ps
    ensures forall i :: 0 <= i < |ems| ==> |ems[i]| == DBP_MAX
  {
    forall i | 0 <= i < |lv|
      ensures |lv[i].em| == DBP_MAX
    {
      assert lv[i] in ps;
    }
  }

  // The pages table with the pointers of the first k pages filled in.
  ghost function Filled(b: Str, rows: seq<Row>, k: nat): Str
    requires k <= |rows| && Shaped(rows)
  {
    b + IntBytes(|rows|) + Flatten(PointerItems(rows, |b|)[..k]) + Zeros(20 * (|rows| - k))
    + (Columns(rows, DBP_MAX) + Zeros(PadLen(ColumnPos(rows, |b|, DBP_MAX))))
  }

  lemma FilledEnds(b: Str, rows: seq<Row>)
    requires Shaped(rows)
    ensures Filled(b, rows, 0) == Unfilled(b, rows, DBP_MAX) + Zeros(PadLen(ColumnPos(rows, |b|, DBP_MAX)))
    ensures |Unfilled(b, rows, DBP_MAX)| == ColumnPos(rows, |b|, DBP_MAX)
    ensures Filled(b, rows, |rows|) == b + PagesBytes(rows, |b|)
    ensures |b| + 4 <= |Filled(b, rows, 0)| == |Filled(b, rows, |rows|)|
  {
    hide Columns, PointerItems;
    var items := PointerItems(rows, |b|);
    FlattenLength(items, 20);
    assert items[..0] == [] && items[..|rows|] == items;
    assert Filled(b, rows, 0) == b + IntBytes(|rows|) + Zeros(20 * |rows|)
        + (Columns(rows, DBP_MAX) + Zeros(PadLen(ColumnPos(rows, |b|, DBP_MAX))));
  }

  // Writing the pointers of page k moves on by one page.
  lemma FilledNext(b: Str, rows: seq<Row>, k: nat)
    requires k < |rows| && Shaped(rows)
    ensures |b| + 4 + 20 * k <= |Filled(b, rows, k)|
    ensures Put(Filled(b, rows, k), |b| + 4 + 20 * k, Ints(Pointers(rows, |b|, k))) == Filled(b, rows, k + 1)
  {
    hide Columns, Pointers, Put, ColumnPos, Ints;
    var items := PointerItems(rows, |b|);
    var rest := Columns(rows, DBP_MAX) + Zeros(PadLen(ColumnPos(rows, |b|, DBP_MAX)));
    var pre := b + IntBytes(|rows|) + Flatten(items[..k]);
    FlattenLength(items[..k], 20);
    var n := 20 * (|rows| - k);
    assert Zeros(n) == Zeros(20) + Zeros(n - 20);
    assert Filled(b, rows, k) == pre + Zeros(20) + (Zeros(n - 20) + rest);
    PutReplaces(pre, Zeros(20), Zeros(n - 20) + rest, items[k]);
    assert items[..k + 1][..k] == items[..k];
  }

  lemma FillStep(b: Str, rows: seq<Row>, ems: seq<seq<int>>, rows0: seq<Row>, k: nat)
    requires Progress(rows, ems, rows0, |b|, DBP_MAX) && k < |rows|
    ensures forall ie :: 0 <= ie < |ems[k]| ==> ems[k][ie] >= 0
    ensures |PositionsFrom(ems[k], 0)| == DBP_MAX
    ensures |b| + 4 + 20 * k <= |Filled(b, rows, k)|
    ensures Put(Filled(b, rows, k), |b| + 4 + 20 * k, Ints(PositionsFrom(ems[k], 0))) == Filled(b, rows, k + 1)
  {
    hide FieldSorted, Filled, Put, FieldPos, Columns;
    assert ems[k] == Pointers(rows, |b|, k);
    NothingDeleted(ems[k], 0);
    FilledNext(b, rows, k);
  }

  // The pointers of the first k of these pages start at offset o.
  ghost predicate Placed(ps: seq<Page>, o: nat, k: nat)
    reads ps
  {
    k <= |ps| && forall i :: 0 <= i < k ==> ps[i].pos == o + 20 * i < INT32_MAX
  }

  // Fill in the pointers of the live page lv[k] of the table tbl.
  method FillNext(st: Stream, page: Page, ghost tbl: seq<Page>, ghost lv: seq<Page>,
                  ghost b: Str, ghost rows: seq<Row>, ghost ems: seq<seq<int>>, ghost rows0: seq<Row>, ghost k: nat)
    returns (r: Option<()>)
    requires st.Valid() && Distinct(lv) && AllOk(tbl) && Apart(tbl, st) && (forall p :: p in lv ==> p in tbl)
    requires Snapshot(lv, rows, ems) && Progress(rows, ems, rows0, |b|, DBP_MAX)
    requires k < |lv| && page == lv[k] && Placed(lv, |b| + 4, k)
    requires st.buf == Filled(b, rows, k) && st.pos == |b| + 4 + 20 * k
    modifies st, page`pos
    ensures st.Valid()
    ensures r.None? ==> |st.buf| >= INT32_MAX && |b| + 4 + 20 * k >= INT32_MAX
    ensures r.Some? ==>
              && AllOk(tbl) && Snapshot(lv, rows, ems) && Placed(lv, |b| + 4, k + 1)
              && st.buf == Filled(b, rows, k + 1) && st.pos == |b| + 4 + 20 * (k + 1)
  {
    hide FieldOk, LiveFrom, Filled, Put, Progress, Ints, PositionsFrom;
    MemberOk(tbl, page, st);
    FillStep(b, rows, ems, rows0, k);
    var _ :- page.WritePos(st);
    forall i | 0 <= i < |tbl|
      ensures PageOk(tbl[i])
    {
    }
    r := Some(());
  }

  // Go back and fill in the pointers of all live pages.
  method FillPointers(st: Stream, pages: DbaArray<Page>,
                      ghost b: Str, ghost lv: seq<Page>, ghost rows: seq<Row>, ghost ems: seq<seq<int>>,
                          ghost rows0: seq<Row>)
    returns (r: Option<()>)
    requires st.Valid() && PagesOk(pages) && st != (pages as object) && Apart(pages.ep, st)
    requires lv == Live(pages.ep, pages.em) && Snapshot(lv, rows, ems) && Progress(rows, ems, rows0, |b|, DBP_MAX)
    requires Shaped(rows) && |rows| == |lv|
    requires st.buf == Filled(b, rows, 0) && st.pos == |b| + 4
    modifies st, pages`ec, lv`pos
    ensures st.Valid()
    ensures r.None? ==> |st.buf| >= INT32_MAX && ColumnPos(rows, |b|, DBP_MAX) >= INT32_MAX
    ensures r.Some? ==>
              && PagesOk(pages) && Snapshot(lv, rows, ems)
              && st.buf == Filled(b, rows, |rows|) && Placed(lv, |b| + 4, |lv|)
  {
    hide LiveFrom, Filled, Progress, PageOk, Apart, Distinct, Shaped, Snapshot;
    ghost var ix, tbl, k := LiveFrom(pages.em, 0), pages.ep, 0;
    LivesDistinct(pages);
    var cur := FirstLive(pages);
    while cur.Some?
      invariant k <= |lv| && AtLive(pages, ix, k) && cur == if k < |ix| then Some(lv[k]) else None
      invariant AllOk(tbl) && Snapshot(lv, rows, ems) && Placed(lv, |b| + 4, k)
      invariant st.Valid() && st.pos == |b| + 4 + 20 * k && st.buf == Filled(b, rows, k)
      decreases |ix| - k
    {
      r := FillNext(st, cur.value, tbl, lv, b, rows, ems, rows0, k);
      if r.None? {
        return;
      }
      cur := NextLive(pages, ix, k);
      k := k + 1;
    }
    r := Some(());
  }

  // Write the pages table at the end of the file.  The program gives up
  // exactly if the position behind the last string, before filling up to a
  // multiple of four, does not fit into 32 bits.
  method WritePages(st: Stream, pages: DbaArray<Page>, ghost lv: seq<Page>, ghost rows0: seq<Row>,
      ghost ems0: seq<seq<int>>)
    returns (r: Option<()>, ghost rows: seq<Row>, ghost ems: seq<seq<int>>)
    requires st.Valid() && st.pos == |st.buf| && PagesOk(pages) && |pages.ep| <= INT32_MAX
    requires st != (pages as object) && Apart(pages.ep, st)
    requires lv == Live(pages.ep, pages.em) && Snapshot(lv, rows0, ems0)
    modifies st, pages`ec, lv`ep, lv`em, lv`pos
    ensures st.Valid()
    ensures r.None? ==> |st.buf| >= INT32_MAX
    ensures Shaped(rows0) && (r.Some? <==> ColumnPos(rows0, old(|st.buf|), DBP_MAX) < INT32_MAX)
    ensures r.Some? ==>
              && PagesOk(pages) && Snapshot(lv, rows, ems) && Shaped(rows) && RowsSorted(rows, rows0)
              && st.buf == old(st.buf) + PagesBytes(rows, old(|st.buf|)) && st.pos == |st.buf|
              && Placed(lv, old(|st.buf|) + 4, |lv|)
  {
    hide LiveFrom, Live, Progress, Unfilled, Filled, ColumnPos, PagesBytes, PageOk;
    ghost var b := st.buf;
    SnapshotShaped(pages.ep, lv, rows0, ems0);
    Reserve(b, rows0);
    var posPages;
    rows, ems := rows0, ems0;
    posPages := pages.WriteLen(st, 5);
    if posPages.None? {
      ColumnPosGrows(rows0, |b|, 0, DBP_MAX);
      ColumnPosStart(rows0, |b|);
      return None, rows, ems;
    }
    r, rows, ems := WriteColumns(st, pages, b, lv, rows0, ems0);
    if r.None? {
      return;
    }
    ProgressDone(rows, ems, rows0, |b|);
    ProgressSize(b, rows, ems, rows0, DBP_MAX);
    FilledEnds(b, rows);
    PutAppends(st.buf, Zeros(PadLen(|st.buf|)));
    var posEnd := st.Align();
    if posEnd.None? {
      return None, rows, ems;
    }
    st.Seek(posPages.value);
    r := FillPointers(st, pages, b, lv, rows, ems, rows0);
    if r.None? {
      return;
    }
    st.Seek(posEnd.value);
  }

  // The writer has sorted the strings of each entry.
  ghost predicate RowsSorted(rows: seq<Row>, rows0: seq<Row>) {
    && |rows| == |rows0| && Shaped(rows) && Shaped(rows0)
    && forall i, ie :: 0 <= i < |rows| && 0 <= ie < DBP_MAX ==> FieldSorted(rows[i][ie], rows0[i][ie], ie)
  }

  lemma SortedSizes(rows: seq<Row>, rows0: seq<Row>)
    requires RowsSorted(rows, rows0)
    ensures SameSizes(rows, rows0)
  {
    hide FieldSorted, FieldBytes;
    forall i, ie | 0 <= i < |rows| && 0 <= ie < DBP_MAX
      ensures |FieldBytes(rows[i][ie])| == |FieldBytes(rows0[i][ie])|
    {
      SortedSize(rows[i][ie], rows0[i][ie], ie);
    }
  }

  lemma ColumnPosStart(rows: seq<Row>, o: nat)
    requires Shaped(rows)
    ensures ColumnPos(rows, o, 0) == o + 4 + 20 * |rows|
  {
  }

  lemma ProgressDone(rows: seq<Row>, ems: seq<seq<int>>, rows0: seq<Row>, o: nat)
    requires Progress(rows, ems, rows0, o, DBP_MAX)
    ensures Shaped(rows) && RowsSorted(rows, rows0)
  {
  }

  lemma Reserve(b: Str, rows: seq<Row>)
    requires Shaped(rows)
    ensures Put(b, |b|, IntBytes(|rows|) + Zeros(4 * 5 * |rows|)) == Unfilled(b, rows, 0)
  {
    PutAppends(b, IntBytes(|rows|) + Zeros(20 * |rows|));
    ConcatAssociative(b, IntBytes(|rows|), Zeros(20 * |rows|));
  }
}
