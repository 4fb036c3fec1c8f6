// Iterating over the pages and macro values of a database file:
// userland/mandoc/dbm.c.
module DbmQuery {
  import opened Bytes
  import opened Dbm
  import opened Layout
  import opened Locate
  import opened Options
  import opened Order

  datatype Iter = None_ | Name | Sect | Arch | Desc | Macro

  // What an iteration gives: a page number, -1 at the end, and for names the
  // mask byte that tells how good the match is.
  datatype Res = Res(page: int, bits: int)

  const NO_PAGE := Res(-1, 0)

  // What dbm_match() decides: an exact, substring, or regular expression
  // match, here any condition on a string.
  type Match = Str -> bool

  /*** what the iterations are meant to give ******************************/

  predicate ByTitle(it: Iter) {
    it.Name? || it.Sect? || it.Desc?
  }

  function EntryOf(it: Iter): (ie: nat)
    ensures ie < DBP_MAX
  {
    match it
    case Name => DBP_NAME
    case Sect => DBP_SECT
    case Arch => DBP_ARCH
    case _ => DBP_DESC
  }

  function StringsOf(row: Row, it: Iter): seq<Str>
    requires RowShape(row)
  {
    match row[EntryOf(it)]
    case Strings(l) => l
    case Text(s) => [s]
    case Null => []
  }

  // The string that is compared: a name comes behind its mask byte.
  function Title(s: Str, it: Iter): Str {
    if it.Name? && s != [] then s[1..] else s
  }

  function Bits(s: Str, it: Iter): int {
    if it.Name? && s != [] then Signed(s[0]) else 0
  }

  // The first matching string from string j on.
  function FirstHit(l: seq<Str>, it: Iter, m: Match, j: nat): (k: nat)
    requires j <= |l|
    ensures j <= k <= |l|
    ensures k < |l| ==> m(Title(l[k], it))
    ensures forall x :: j <= x < k ==> !m(Title(l[x], it))
    decreases |l| - j
  {
    if j == |l| || m(Title(l[j], it)) then j else FirstHit(l, it, m, j + 1)
  }

  // The pages from page i on that have a matching string.
  function Hits(rows: seq<Row>, it: Iter, m: Match, i: nat): seq<Res>
    requires Shaped(rows)
    decreases |rows| - i
  {
    if i >= |rows| then []
    else
      var l := StringsOf(rows[i], it);
      var k := FirstHit(l, it, m, 0);
      (if k < |l| then [Res(i, Bits(l[k], it))] else []) + Hits(rows, it, m, i + 1)
  }

  predicate Matches(row: Row, it: Iter, m: Match)
    requires RowShape(row)
  {
    exists x :: 0 <= x < |StringsOf(row, it)| && m(Title(StringsOf(row, it)[x], it))
  }

  // The page is found exactly if it matches.
  lemma HitStep(rows: seq<Row>, it: Iter, m: Match, i: nat)
    requires Shaped(rows) && i < |rows|
    ensures
      var rest := Hits(rows, it, m, i + 1);
      if Matches(rows[i], it, m) then
        exists b :: Hits(rows, it, m, i) == [Res(i, b)] + rest
      else
        Hits(rows, it, m, i) == rest
  {
    var l := StringsOf(rows[i], it);
    var k := FirstHit(l, it, m, 0);
    if k < |l| {
      assert Hits(rows, it, m, i) == [Res(i, Bits(l[k], it))] + Hits(rows, it, m, i + 1);
    }
  }

  // These are exactly the matching pages from page i on, in ascending order,
  // each once.
  ghost predicate AllMatches(hits: seq<Res>, rows: seq<Row>, it: Iter, m: Match, i: nat)
    requires Shaped(rows)
  {
    && (forall x :: 0 <= x < |hits| ==> i <= hits[x].page < |rows| && Matches(rows[hits[x].page], it, m))
    && (forall p :: i <= p < |rows| && Matches(rows[p], it, m) ==> exists x :: 0 <= x < |hits| && hits[x].page == p)
    && (forall x, y :: 0 <= x < y < |hits| ==> hits[x].page < hits[y].page)
  }

  lemma OneMore(hits: seq<Res>, h: Res, rows: seq<Row>, it: Iter, m: Match, i: nat)
    requires Shaped(rows) && i < |rows| && AllMatches(hits, rows, it, m, i + 1)
    requires h.page == i && Matches(rows[i], it, m)
    ensures AllMatches([h] + hits, rows, it, m, i)
  {
    hide Matches, RowShape;
    var all := [h] + hits;
    assert forall x :: 0 < x < |all| ==> all[x] == hits[x - 1];
    forall p | i <= p < |rows| && Matches(rows[p], it, m)
      ensures exists x :: 0 <= x < |all| && all[x].page == p
    {
      if p == i {
        assert all[0].page == p;
      } else {
        var x :| 0 <= x < |hits| && hits[x].page == p;
        assert all[x + 1].page == p;
      }
    }
  }

  lemma NoMore(hits: seq<Res>, rows: seq<Row>, it: Iter, m: Match, i: nat)
    requires Shaped(rows) && i < |rows| && AllMatches(hits, rows, it, m, i + 1) && !Matches(rows[i], it, m)
    ensures AllMatches(hits, rows, it, m, i)
  {
    hide Matches, RowShape;
  }

  lemma {:induction false} HitsExact(rows: seq<Row>, it: Iter, m: Match, i: nat)
    requires Shaped(rows)
    ensures AllMatches(Hits(rows, it, m, i), rows, it, m, i)
    decreases |rows| - i
  {
    if i < |rows| {
      hide Matches, RowShape, FirstHit, StringsOf, AllMatches, Hits;
      HitStep(rows, it, m, i);
      HitsExact(rows, it, m, i + 1);
      var rest := Hits(rows, it, m, i + 1);
      if Matches(rows[i], it, m) {
        var b :| Hits(rows, it, m, i) == [Res(i, b)] + rest;
        OneMore(rest, Res(i, b), rows, it, m, i);
      } else {
        NoMore(rest, rows, it, m, i);
      }
    }
  }

  // The names of all pages are in the order in which the writer leaves them.
  ghost predicate NamesSorted(rows: seq<Row>)
    requires Shaped(rows)
  {
    forall p {:trigger rows[p]} :: 0 <= p < |rows| ==>
        Ordered(rows[p][DBP_NAME].l, NameLeq) && ListOk(rows[p][DBP_NAME].l)
  }

  // As the names of a page are sorted by descending mask, the bits of a page
  // are the greatest mask of all its matching names.
  lemma {:induction false} GreatestMask(rows: seq<Row>, m: Match, i: nat, h: Res)
    requires Shaped(rows) && h in Hits(rows, Name, m, i)
    requires NamesSorted(rows)
    ensures 0 <= h.page < |rows|
    ensures
      var l := rows[h.page][DBP_NAME].l;
      && (exists x :: 0 <= x < |l| && m(l[x][1..]) && Signed(l[x][0]) == h.bits)
      && (forall x :: 0 <= x < |l| && m(l[x][1..]) ==> Signed(l[x][0]) <= h.bits)
    decreases |rows| - i
  {
    hide CaseLeq;
    if i < |rows| {
      var l := StringsOf(rows[i], Name);
      var k := FirstHit(l, Name, m, 0);
      if k < |l| && h == Res(i, Bits(l[k], Name)) {
        assert m(l[k][1..]);
        forall x | 0 <= x < |l| && m(l[x][1..])
          ensures Signed(l[x][0]) <= h.bits
        {
          assert x >= k by {
            assert Title(l[x], Name) == l[x][1..];
          }
          assert x == k || NameLeq(l[k], l[x]);
        }
      } else {
        GreatestMask(rows, m, i + 1, h);
      }
    }
  }

  // The pages listed for the matching values of a macro from value iv on.
  function MacroHits(vs: seq<Value>, m: Match, iv: nat): seq<Res>
    decreases |vs| - iv
  {
    if iv >= |vs| then []
    else (if m(vs[iv].key) then PagesOf(vs[iv].refs, 0) else []) + MacroHits(vs, m, iv + 1)
  }

  // The number of the page whose record is at this offset.
  function PageAt(ref: int): int {
    (ref - 20) / 20
  }

  // The page numbers of references j and later.
  function PagesOf(refs: seq<nat>, j: nat): (r: seq<Res>)
    ensures |r| == if j < |refs| then |refs| - j else 0
    ensures forall x :: 0 <= x < |r| ==> r[x] == Res(PageAt(refs[j + x]), 0)
    decreases |refs| - j
  {
    if j >= |refs| then [] else [Res(PageAt(refs[j]), 0)] + PagesOf(refs, j + 1)
  }

  // The values of a macro from value iv on that are listed with the page at
  // offset addr.
  function ValuesWith(vs: seq<Value>, addr: nat, iv: nat): seq<Str>
    decreases |vs| - iv
  {
    if iv >= |vs| then []
    else (if addr in vs[iv].refs then [vs[iv].key] else []) + ValuesWith(vs, addr, iv + 1)
  }

  // Every reference is the offset of a page record.
  ghost predicate RefsWritten(refs: seq<nat>, n: nat) {
    forall j :: 0 <= j < |refs| ==> 20 <= refs[j] <= INT32_MAX && exists p: nat :: p < n && refs[j] == PageAddr(p)
  }

  // What dba_write() leaves of a macro table.
  ghost predicate TableWritten(vs: seq<Value>, n: nat) {
    && (forall i :: 0 <= i < |vs| ==> NoNul(vs[i].key))
    && (forall i :: 0 <= i < |vs| ==> RefsWritten(vs[i].refs, n))
    && KeysAscending(vs)
  }

  ghost predicate Ascending(l: seq<Str>) {
    Ordered(l, LexLeq) && forall x, y :: 0 <= x < y < |l| ==> l[x] != l[y]
  }

  lemma ConsAscending(k: Str, l: seq<Str>)
    requires Ascending(l) && forall x :: 0 <= x < |l| ==> l[x] != k && LexLeq(k, l[x])
    ensures Ascending([k] + l)
  {
    hide LexLeq;
    var r := [k] + l;
    assert forall x :: 0 < x < |r| ==> r[x] == l[x - 1];
  }

  // Values are different strings in ascending order.
  ghost predicate KeysAscending(vs: seq<Value>) {
    forall i, j :: 0 <= i < j < |vs| ==> vs[i].key != vs[j].key && LexLeq(vs[i].key, vs[j].key)
  }

  lemma {:induction false} AboveKey(vs: seq<Value>, addr: nat, iv: nat, j: nat, k: Str)
    requires KeysAscending(vs) && iv < j && iv < |vs| && k in ValuesWith(vs, addr, j)
    ensures k != vs[iv].key && LexLeq(vs[iv].key, k)
    decreases |vs| - j
  {
    hide LexLeq;
    if j < |vs| && !(addr in vs[j].refs && k == vs[j].key) {
      AboveKey(vs, addr, iv, j + 1, k);
    }
  }

  lemma {:induction false} ValuesAscend(vs: seq<Value>, addr: nat, iv: nat)
    requires KeysAscending(vs)
    ensures Ascending(ValuesWith(vs, addr, iv))
    decreases |vs| - iv
  {
    if iv < |vs| {
      hide LexLeq, Ascending, KeysAscending;
      ValuesAscend(vs, addr, iv + 1);
      var rest := ValuesWith(vs, addr, iv + 1);
      forall x | 0 <= x < |rest|
        ensures rest[x] != vs[iv].key && LexLeq(vs[iv].key, rest[x])
      {
        AboveKey(vs, addr, iv, iv + 1, rest[x]);
      }
      ConsAscending(vs[iv].key, rest);
      assert [] + rest == rest;
    }
  }

  lemma {:induction false} ValuesWithExact(vs: seq<Value>, addr: nat, iv: nat, i: nat)
    requires KeysAscending(vs) && iv <= i < |vs|
    ensures vs[i].key in ValuesWith(vs, addr, iv) <==> addr in vs[i].refs
    decreases i - iv
  {
    hide LexLeq;
    if iv < i {
      ValuesWithExact(vs, addr, iv + 1, i);
      assert vs[i].key != vs[iv].key;
    } else {
      var rest := ValuesWith(vs, addr, iv + 1);
      forall x | 0 <= x < |rest|
        ensures rest[x] != vs[iv].key
      {
        AboveKey(vs, addr, iv, iv + 1, rest[x]);
      }
    }
  }

  // An exact match finds the page list of the value with that key.
  lemma {:induction false} ExactHits(vs: seq<Value>, m: Match, i: nat, iv: nat)
    requires i < |vs| && iv <= |vs| && forall k :: 0 <= k < |vs| ==> (m(vs[k].key) <==> k == i)
    ensures MacroHits(vs, m, iv) == if iv <= i then PagesOf(vs[i].refs, 0) else []
    decreases |vs| - iv
  {
    if iv < |vs| {
      ExactHits(vs, m, i, iv + 1);
    }
  }

  lemma ListedWith(refs: seq<nat>, n: nat, p: nat)
    requires RefsWritten(refs, n) && p < n
    ensures PageAddr(p) in refs <==> Res(p, 0) in PagesOf(refs, 0)
  {
    var r := PagesOf(refs, 0);
    if PageAddr(p) in refs {
      var j :| 0 <= j < |refs| && refs[j] == PageAddr(p);
      assert r[j] == Res(p, 0);
    }
    if Res(p, 0) in r {
      var j :| 0 <= j < |refs| && r[j] == Res(p, 0);
      var q: nat :| q < n && refs[j] == PageAddr(q);
    }
  }

  // The two macro iterations are converse relations: page p is listed with
  // value i if and only if a search for exactly that value gives page p.
  lemma Converse(vs: seq<Value>, n: nat, i: nat, p: nat)
    requires TableWritten(vs, n) && i < |vs| && p < n
    ensures
      var m := s => s == vs[i].key;
      vs[i].key in ValuesWith(vs, PageAddr(p), 0) <==> Res(p, 0) in MacroHits(vs, m, 0)
  {
    hide LexLeq, RefsWritten, PageAddr, PagesOf, MacroHits, ValuesWith;
    var m := s => s == vs[i].key;
    assert forall a, b :: 0 <= a < b < |vs| ==> vs[a].key != vs[b].key;
    forall k | 0 <= k < |vs|
      ensures m(vs[k].key) <==> k == i
    {
    }
    ExactHits(vs, m, i, 0);
    ValuesWithExact(vs, PageAddr(p), 0, i);
    ListedWith(vs[i].refs, n, p);
  }

  /*** where the strings are in the file *********************************/

  // The file has been written by dba_write(), and each page in it has a name
  // and a section.
  ghost predicate Database(f: Str, rows: seq<Row>, ms: seq<seq<Value>>) {
    && Shaped(rows) && |ms| == MACRO_MAX && f == FileBytes(rows, ms) && |f| <= INT32_MAX
    && (forall i {:trigger rows[i]} :: 0 <= i < |rows| ==>
       RowOk(rows[i]) && rows[i][DBP_NAME].l != [] && rows[i][DBP_SECT].l != [])
    && (forall im {:trigger ms[im]} :: 0 <= im < MACRO_MAX ==> TableWritten(ms[im], |rows|))
  }

  // Where the strings of page i start, and string j of them.
  ghost function TitlePos(rows: seq<Row>, it: Iter, i: nat): nat
    requires Shaped(rows) && i <= |rows|
  {
    ColumnPos(rows, 16, EntryOf(it)) + Offset(Column(rows, EntryOf(it)), i)
  }

  ghost function ItemPos(rows: seq<Row>, it: Iter, i: nat, j: nat): nat
    requires Shaped(rows) && i < |rows| && j <= |StringsOf(rows[i], it)|
  {
    TitlePos(rows, it, i) + Offset(StrItems(StringsOf(rows[i], it)), j)
  }

  lemma TitlesAt(f: Str, rows: seq<Row>, ms: seq<seq<Value>>, it: Iter, i: nat)
    requires Database(f, rows, ms) && i < |rows|
    ensures TitlePos(rows, it, i + 1) == TitlePos(rows, it, i) + |FieldBytes(rows[i][EntryOf(it)])|
    ensures At(f, TitlePos(rows, it, i), FieldBytes(rows[i][EntryOf(it)]))
    ensures StringsOf(rows[i], it) != [] || it.Arch?
    ensures ItemPos(rows, it, i, 0) == TitlePos(rows, it, i)
  {
    hide FileBytes, PagesBytes, FieldBytes, TableWritten, ColumnPos, Flatten;
    FileParts(rows, ms);
    FieldAt(f, rows, 16, i, EntryOf(it));
    OffsetNext(Column(rows, EntryOf(it)), i);
    OffsetStart(StrItems(StringsOf(rows[i], it)));
    ColumnPiece(rows, EntryOf(it), i);
    RowsFine(f, rows, ms, i);
  }

  lemma RowsFine(f: Str, rows: seq<Row>, ms: seq<seq<Value>>, i: nat)
    requires Database(f, rows, ms) && i < |rows|
    ensures Shaped(rows) && RowOk(rows[i]) && rows[i][DBP_NAME].l != [] && rows[i][DBP_SECT].l != []
  {
    hide FileBytes;
  }

  // The first string of the first page.
  lemma FirstTitle(f: Str, rows: seq<Row>, ms: seq<seq<Value>>, it: Iter)
    requires Database(f, rows, ms) && |rows| > 0 && ByTitle(it)
    ensures MapInt(f, 20 + 4 * EntryOf(it)) == TitlePos(rows, it, 0) < |f|
  {
    hide FileBytes, FieldBytes, TableWritten, ColumnPos, Flatten, At;
    FieldInFile(rows, ms, 0, EntryOf(it));
    RowsFine(f, rows, ms, 0);
  }

  // The name starts behind its mask byte.
  lemma BehindMask(f: Str, p: nat, s: Str)
    requires p < |f| && f[p] != 0 && StrAt(f, p) == s && s != []
    ensures StrAt(f, p + 1) == s[1..] && f[p] == s[0] && NextStr(f, p + 1) == NextStr(f, p)
  {
    assert StrEnd(f, p) == StrEnd(f, p + 1);
    assert f[p..StrEnd(f, p)][1..] == f[p + 1..StrEnd(f, p)];
  }

  function Behind(it: Iter): nat {
    if it.Name? then 1 else 0
  }

  // The description of page i, and where the next one starts.
  lemma DescAt(f: Str, rows: seq<Row>, ms: seq<seq<Value>>, i: nat)
    requires Database(f, rows, ms) && i < |rows|
    ensures
      var p, n := TitlePos(rows, Desc, i), TitlePos(rows, Desc, i + 1);
      p <= |f| && |StringsOf(rows[i], Desc)| == 1 && StrAt(f, p) == StringsOf(rows[i], Desc)[0]
          && NextStr(f, p) == n <= |f|
  {
    hide FileBytes, TitlePos, Offset, At, ListBytes, Database;
    RowsFine(f, rows, ms, i);
    TitlesAt(f, rows, ms, Desc, i);
    StrRoundTrip(f, TitlePos(rows, Desc, i), StringsOf(rows[i], Desc)[0]);
  }

  // Name or section j of page i, and where the next one starts.
  lemma TitleAt(f: Str, rows: seq<Row>, ms: seq<seq<Value>>, it: Iter, i: nat, j: nat)
    requires Database(f, rows, ms) && i < |rows| && (it.Name? || it.Sect?) && j < |StringsOf(rows[i], it)|
    ensures
      var l, p, n := StringsOf(rows[i], it), ItemPos(rows, it, i, j), ItemPos(rows, it, i, j + 1);
      && p + Behind(it) <= |f| && StrAt(f, p + Behind(it)) == Title(l[j], it) && NextStr(f, p + Behind(it)) == n
      && p < |f| && f[p] != 0 && (it.Name? ==> l[j] != [] && f[p] == l[j][0])
      && TitlePos(rows, it, i) <= p && n < |f| && n < TitlePos(rows, it, i + 1) && (f[n] == 0 <==> j + 1 == |l|)
         && (j + 1 == |l| ==> n + 1 == TitlePos(rows, it, i + 1))
  {
    hide FileBytes, TitlePos, Offset, At, ListBytes, Database, RowOk, StrAt, NextStr;
    RowsFine(f, rows, ms, i);
    var l, o := StringsOf(rows[i], it), TitlePos(rows, it, i);
    StringsFine(rows[i], it);
    TitlesAt(f, rows, ms, it, i);
    ListItemAt(f, o, l, j);
    if it.Name? {
      BehindMask(f, ItemPos(rows, it, i, j), l[j]);
    }
    if j + 1 < |l| {
      ListItemAt(f, o, l, j + 1);
    } else {
      ListEndAt(f, o, l);
    }
  }

  lemma StringsFine(row: Row, it: Iter)
    requires RowOk(row) && (it.Name? || it.Sect?)
    ensures ListOk(StringsOf(row, it)) && FieldBytes(row[EntryOf(it)]) == ListBytes(StringsOf(row, it))
  {
    hide ListBytes;
  }

  // No two NUL bytes in a row before the end of a list.
  ghost predicate NoPair(f: Str, a: nat, b: nat) {
    b <= |f| && forall x {:trigger f[x]} :: a <= x && x + 1 < b && f[x] == 0 ==> f[x + 1] != 0
  }

  lemma {:induction false} PairFree(f: Str, o: nat, l: seq<Str>, j: nat)
    requires ListOk(l) && At(f, o, ListBytes(l)) && j <= |l|
    ensures NoPair(f, o, o + Offset(StrItems(l), j))
    ensures j > 0 ==> Offset(StrItems(l), j) > 0 && f[o + Offset(StrItems(l), j) - 1] == 0
  {
    hide ListBytes, At, Offset;
    if j == 0 {
      OffsetStart(StrItems(l));
      ListEndAt(f, o, l);
    } else {
      PairFree(f, o, l, j - 1);
      ListItemAt(f, o, l, j - 1);
    }
  }

  // The list of page i ends with the first two NUL bytes in a row.
  lemma DoubleNul(f: Str, rows: seq<Row>, ms: seq<seq<Value>>, it: Iter, i: nat)
    requires Database(f, rows, ms) && i < |rows| && (it.Name? || it.Sect?)
    ensures
      var a, b := TitlePos(rows, it, i), TitlePos(rows, it, i + 1);
      a + 2 <= b <= |f| && f[b - 1] == 0 == f[b - 2] && NoPair(f, a, b - 1)
  {
    hide FileBytes, TitlePos, Offset, At, ListBytes, Database, NoPair;
    RowsFine(f, rows, ms, i);
    var l, o := StringsOf(rows[i], it), TitlePos(rows, it, i);
    TitlesAt(f, rows, ms, it, i);
    ListEndAt(f, o, l);
    PairFree(f, o, l, |l|);
  }

  /*** iterating over pages ***********************************************/

  // The cursor is at string j of page i, and no string before it matches.
  ghost predicate Cursor(rows: seq<Row>, it: Iter, m: Match, i: nat, j: nat, cp: nat) {
    && Shaped(rows) && ByTitle(it)
    && (i < |rows| ==>
          var l := StringsOf(rows[i], it);
          j < |l| && cp == ItemPos(rows, it, i, j) && FirstHit(l, it, m, 0) == FirstHit(l, it, m, j))
  }

  lemma CursorStart(f: Str, rows: seq<Row>, ms: seq<seq<Value>>, it: Iter, m: Match, i: nat, cp: nat)
    requires Database(f, rows, ms) && ByTitle(it) && i <= |rows| && (i < |rows| ==> cp == TitlePos(rows, it, i))
    ensures Cursor(rows, it, m, i, 0, cp)
  {
    hide Database, FileBytes, TitlePos, ItemPos, FirstHit;
    DatabaseShaped(f, rows, ms);
    if i < |rows| {
      TitlesAt(f, rows, ms, it, i);
    }
  }

  lemma DatabaseShaped(f: Str, rows: seq<Row>, ms: seq<seq<Value>>)
    requires Database(f, rows, ms)
    ensures Shaped(rows)
  {
    hide FileBytes;
  }

  lemma CursorAt(rows: seq<Row>, it: Iter, m: Match, i: nat, j: nat, cp: nat)
    requires Cursor(rows, it, m, i, j, cp) && i < |rows|
    ensures Shaped(rows) && ByTitle(it)
    ensures
      var l := StringsOf(rows[i], it);
      j < |l| && cp == ItemPos(rows, it, i, j) && FirstHit(l, it, m, 0) == FirstHit(l, it, m, j)
  {
  }

  lemma CursorString(f: Str, rows: seq<Row>, ms: seq<seq<Value>>, it: Iter, m: Match, i: nat, j: nat, cp: nat)
    requires Database(f, rows, ms) && Cursor(rows, it, m, i, j, cp) && i < |rows|
    ensures Shaped(rows) && j < |StringsOf(rows[i], it)|
    ensures cp + Behind(it) <= |f| && StrAt(f, cp + Behind(it)) == Title(StringsOf(rows[i], it)[j], it)
    ensures it.Name? ==> cp < |f| && Bits(StringsOf(rows[i], it)[j], it) == Signed(f[cp])
  {
    hide Database, FileBytes, TitlePos, FirstHit, StrAt, NextStr, Cursor, ItemPos, StringsOf;
    CursorAt(rows, it, m, i, j, cp);
    if it.Desc? {
      TitlesAt(f, rows, ms, it, i);
      DescAt(f, rows, ms, i);
    } else {
      TitleAt(f, rows, ms, it, i, j);
    }
  }

  // Going on behind a string that does not match.
  lemma CursorNext(f: Str, rows: seq<Row>, ms: seq<seq<Value>>, it: Iter, m: Match, i: nat, j: nat, cp: nat)
    requires Database(f, rows, ms) && Cursor(rows, it, m, i, j, cp) && i < |rows|
    requires cp + Behind(it) <= |f| && !m(StrAt(f, cp + Behind(it)))
    ensures
      var n := NextStr(f, cp + Behind(it));
      && n <= |f|
      && (it.Desc? ==> Cursor(rows, it, m, i + 1, 0, n) && Hits(rows, it, m, i) == Hits(rows, it, m, i + 1))
      && (!it.Desc? ==>
            && n < |f|
            && if f[n] == 0 then Cursor(rows, it, m, i + 1, 0, n + 1)
               && Hits(rows, it, m, i) == Hits(rows, it, m, i + 1)
               else Cursor(rows, it, m, i, j + 1, n))
  {
    hide Database, FileBytes, TitlePos, StrAt, NextStr, Cursor, ItemPos;
    CursorAt(rows, it, m, i, j, cp);
    CursorString(f, rows, ms, it, m, i, j, cp);
    var l := StringsOf(rows[i], it);
    if it.Desc? {
      TitlesAt(f, rows, ms, it, i);
      DescAt(f, rows, ms, i);
      CursorStart(f, rows, ms, it, m, i + 1, TitlePos(rows, it, i + 1));
    } else {
      TitleAt(f, rows, ms, it, i, j);
      if j + 1 == |l| {
        CursorStart(f, rows, ms, it, m, i + 1, TitlePos(rows, it, i + 1));
      } else {
        CursorMoved(rows, it, m, i, j + 1);
      }
    }
  }

  lemma CursorMoved(rows: seq<Row>, it: Iter, m: Match, i: nat, j: nat)
    requires Shaped(rows) && ByTitle(it) && i < |rows| && j < |StringsOf(rows[i], it)|
    requires FirstHit(StringsOf(rows[i], it), it, m, 0) == FirstHit(StringsOf(rows[i], it), it, m, j)
    ensures Cursor(rows, it, m, i, j, ItemPos(rows, it, i, j))
  {
    hide ItemPos;
  }

  lemma HitHere(rows: seq<Row>, it: Iter, m: Match, i: nat, j: nat)
    requires Shaped(rows) && i < |rows| && j < |StringsOf(rows[i], it)|
    requires FirstHit(StringsOf(rows[i], it), it, m, 0) == FirstHit(StringsOf(rows[i], it), it, m, j)
    requires m(Title(StringsOf(rows[i], it)[j], it))
    ensures Hits(rows, it, m, i) == [Res(i, Bits(StringsOf(rows[i], it)[j], it))] + Hits(rows, it, m, i + 1)
  {
    hide StringsOf, RowShape;
  }

  // A matching string is the result for its page.
  lemma CursorHit(f: Str, rows: seq<Row>, ms: seq<seq<Value>>, it: Iter, m: Match, i: nat, j: nat, cp: nat)
    requires Database(f, rows, ms) && Cursor(rows, it, m, i, j, cp) && i < |rows|
    requires cp + Behind(it) <= |f| && m(StrAt(f, cp + Behind(it)))
    ensures it.Name? ==> cp < |f|
    ensures Hits(rows, it, m, i) == [Res(i, if it.Name? then Signed(f[cp]) else 0)] + Hits(rows, it, m, i + 1)
  {
    hide Database, FileBytes, TitlePos, StrAt, ItemPos, Cursor, StringsOf, FirstHit, Hits;
    CursorAt(rows, it, m, i, j, cp);
    CursorString(f, rows, ms, it, m, i, j, cp);
    HitHere(rows, it, m, i, j);
  }

  lemma NoHits(rows: seq<Row>, it: Iter, m: Match)
    requires Shaped(rows)
    ensures Hits(rows, it, m, |rows|) == []
  {
  }

  // What remains to be given when one result has been given.
  ghost predicate Gives(todo: seq<Res>, res: Res, rest: seq<Res>) {
    if todo == [] then res == NO_PAGE && rest == []
    else res == todo[0] && rest == todo[1..]
  }

  // The start of the list of the next page, from any place in this one.
  lemma SkipTo(f: Str, rows: seq<Row>, ms: seq<seq<Value>>, it: Iter, m: Match, i: nat, j: nat, cp: nat)
    requires Database(f, rows, ms) && Cursor(rows, it, m, i, j, cp) && i < |rows|
    requires cp + Behind(it) <= |f|
    ensures
      var q, e := cp + Behind(it), TitlePos(rows, it, i + 1);
      && q < e <= |f|
      && (it.Desc? ==> e == NextStr(f, q))
      && (!it.Desc? ==>
            TitlePos(rows, it, i) + 2 <= e && f[e - 1] == 0 == f[e - 2] && NoPair(f, TitlePos(rows, it, i), e - 1))
      && (it.Sect? ==> f[q] != 0) && TitlePos(rows, it, i) + Behind(it) <= q
  {
    hide Database, FileBytes, TitlePos, StrAt, NoPair, FirstHit, Cursor, ItemPos;
    CursorAt(rows, it, m, i, j, cp);
    if it.Desc? {
      TitlesAt(f, rows, ms, it, i);
      DescAt(f, rows, ms, i);
    } else {
      TitleAt(f, rows, ms, it, i, j);
      DoubleNul(f, rows, ms, it, i);
    }
  }

  // The first place where skipping can end is the start of the next list.
  lemma SkipEnds(f: Str, it: Iter, a: nat, q: nat, e: nat, p: nat)
    requires ByTitle(it) && q < p <= e <= |f| && a + Behind(it) <= q && (it.Sect? ==> f[q] != 0)
    requires if it.Desc? then e == NextStr(f, q) else f[e - 1] == 0 == f[e - 2] && NoPair(f, a, e - 1)
    ensures p == e <==> f[p - 1] == 0 && (it.Desc? || (p >= 2 && f[p - 2] == 0))
  {
    if p < e && !it.Desc? && f[p - 1] == 0 {
      var x := p - 2;
      assert f[x] != 0 || f[x + 1] != 0;
    }
  }

  /*** iterating over architectures ****************************************/

  // The architectures of page i.
  lemma ArchAt(f: Str, rows: seq<Row>, ms: seq<seq<Value>>, i: nat)
    requires Database(f, rows, ms) && i < |rows|
    ensures
      var p, l := MapInt(f, PageAddr(i) + 8), StringsOf(rows[i], Arch);
      if p == 0 then l == [] else 0 <= p < |f| && At(f, p, ListBytes(l)) && ListOk(l)
  {
    hide FileBytes, TableWritten, At, ListBytes, IntAt;
    RowsFine(f, rows, ms, i);
    FieldInFile(rows, ms, i, DBP_ARCH);
  }

  // Whether string j of a list matches, or what follows it.
  lemma ArchString(f: Str, o: nat, l: seq<Str>, m: Match, j: nat)
    requires At(f, o, ListBytes(l)) && ListOk(l) && j <= |l|
    ensures
      var p := o + Offset(StrItems(l), j);
      && p < |f| && (f[p] == 0 <==> j == |l|)
      && (j < |l| ==>
            && Offset(StrItems(l), j) < |ListBytes(l)| && StrAt(f, p) == l[j]
            && NextStr(f, p) == o + Offset(StrItems(l), j + 1))
      && (j < |l| ==> FirstHit(l, Arch, m, j) == if m(l[j]) then j else FirstHit(l, Arch, m, j + 1))
  {
    hide ListBytes, At, Offset, StrAt, NextStr;
    if j < |l| {
      ListItemAt(f, o, l, j);
    } else {
      ListEndAt(f, o, l);
    }
  }

  /*** iterating over macro values *****************************************/

  // The table of macro im as dbm_open() has found it.
  ghost predicate TableOpen(f: Str, vs: seq<Value>, n: nat, nval: int, macro: nat) {
    && nval == |vs| && macro >= 4 && |f| <= INT32_MAX && At(f, macro - 4, TableBytes(vs, macro - 4))
       && TableWritten(vs, n)
    && 20 + 20 * n <= |f|
  }

  lemma TableOpened(f: Str, rows: seq<Row>, ms: seq<seq<Value>>, ix: Index, im: nat)
    requires Database(f, rows, ms) && IndexOf(ix, f) && im < MACRO_MAX
    ensures |ix.nvals| == |ix.macros| == MACRO_MAX == |ms| && ix.nvals[im] == |ms[im]| && ix.macros[im] >= 4
    ensures TableOpen(f, ms[im], |rows|, ix.nvals[im], ix.macros[im])
  {
    hide FileBytes, MapInt, At, TableBytes, Opens, TableWritten, PagesBytes, MacrosBytes, IntBytes;
    WrittenOpens(rows, ms);
    assert MacroPlaced(f, MapInt(f, 8), im, ix.nvals[im], ix.macros[im]);
    WrittenTable(rows, ms, im);
    if |rows| > 0 {
      FieldInFile(rows, ms, |rows| - 1, 4);
    }
    FileParts(rows, ms);
  }

  // The pointers to value i and to its page list.
  lemma ValuePointers(f: Str, vs: seq<Value>, n: nat, nval: int, macro: nat, i: nat)
    requires TableOpen(f, vs, n, nval, macro) && i < |vs|
    ensures Get(f, MapInt(f, macro + 8 * i)) == Some(KeyPos(vs, macro - 4, i))
    ensures Get(f, MapInt(f, macro + 8 * i + 4)) == Some(ListPos(vs, macro - 4, i))
    ensures KeyPos(vs, macro - 4, i) <= |f| && StrAt(f, KeyPos(vs, macro - 4, i)) == vs[i].key
    ensures NextStr(f, KeyPos(vs, macro - 4, i)) == KeyPos(vs, macro - 4, i + 1)
    ensures ListPos(vs, macro - 4, i + 1) == ListPos(vs, macro - 4, i) + 4 * |vs[i].refs| + 4
  {
    hide TableBytes, KeyPos, ListPos, IntAt;
    ValueAt(f, vs, macro - 4, i);
    StrRoundTrip(f, KeyPos(vs, macro - 4, i), vs[i].key);
    ListReference(f, vs, n, nval, macro, i, 0);
  }

  // Reference j of value i, or the 0 at the end of its page list.
  lemma ListReference(f: Str, vs: seq<Value>, n: nat, nval: int, macro: nat, i: nat, j: nat)
    requires TableOpen(f, vs, n, nval, macro) && i < |vs| && j <= |vs[i].refs|
    ensures
      var p := ListPos(vs, macro - 4, i) + 4 * j;
      && p + 4 <= |f| && MapInt(f, p) == (if j < |vs[i].refs| then vs[i].refs[j] else 0)
      && (MapInt(f, p) == 0 <==> j == |vs[i].refs|)
      && (j < |vs[i].refs| ==> Get(f, MapInt(f, p)) == Some(vs[i].refs[j]))
  {
    hide TableBytes, KeyPos, ListPos, IntAt, At;
    RefsFine(vs, n, i);
    RefAt(f, vs, macro - 4, i, j);
  }

  lemma RefsFine(vs: seq<Value>, n: nat, i: nat)
    requires TableWritten(vs, n) && i < |vs|
    ensures forall j :: 0 <= j < |vs[i].refs| ==> 20 <= vs[i].refs[j] <= INT32_MAX && vs[i].refs[j] < 20 + 20 * n
  {
    hide LexLeq;
    assert RefsWritten(vs[i].refs, n);
  }

  // The static variables of dbm.c for iterating over pages by name, section,
  // description, or architecture, in an open database file.
  class PageQuery {
    const f: Str
    const npages: nat
    ghost const rows: seq<Row>
    ghost const ms: seq<seq<Value>>

    var iteration: Iter
    var matching: Match
    // page_bytitle()
    var cp: nat
    var ip: nat
    // page_byarch()
    var archIp: nat

    constructor (f: Str, ix: Index, ghost rows: seq<Row>, ghost ms: seq<seq<Value>>)
      requires Database(f, rows, ms) && IndexOf(ix, f)
      ensures Valid() && Todo() == [] && this.f == f && this.rows == rows && this.ms == ms
    {
      hide Database, FileBytes, Opens, Hits, TitlePos, IndexOf;
      this.f, npages, this.rows, this.ms := f, ix.npages, rows, ms;
      iteration, matching, cp, ip, archIp := None_, s => false, 0, 0, 0;
      new;
      PagesOpened(f, rows, ms, ix);
    }

    ghost predicate Open() {
      Database(f, rows, ms) && npages == |rows| && Shaped(rows)
    }

    // Between two results, the cursor is at the start of a list.
    ghost predicate Valid()
      reads this
    {
      && Open()
      && (ByTitle(iteration) ==> ip <= npages && (ip < npages ==> cp == TitlePos(rows, iteration, ip)))
      && (iteration.Arch? ==> archIp <= npages) && !iteration.Macro?
    }

    // The results that the current iteration has not given yet.
    ghost function Todo(): seq<Res>
      requires Valid()
      reads this
    {
      if ByTitle(iteration) then Hits(rows, iteration, matching, ip)
      else if iteration.Arch? then Hits(rows, Arch, matching, archIp)
      else []
    }

    // Start an iteration over all pages having a certain name, section, or
    // description.
    method StartByTitle(it: Iter, m: Match)
      requires Valid() && ByTitle(it)
      modifies this
      ensures Valid() && Todo() == Hits(rows, it, m, 0)
    {
      hide Database, FileBytes, TitlePos;
      iteration, matching := it, m;
      var first := Get(f, MapInt(f, 20 + 4 * EntryOf(it)));
      if |rows| > 0 {
        FirstTitle(f, rows, ms, it);
      }
      if first.None? {
        iteration, ip := None_, npages;
      } else {
        cp, ip := first.value, 0;
      }
    }

    // Skip the remaining strings of page i.
    method SkipPage(ghost it: Iter, ghost m: Match, ghost i: nat, ghost j: nat)
      requires Open() && ByTitle(it) && iteration == it && i < npages
      requires cp >= Behind(it) && Cursor(rows, it, m, i, j, cp - Behind(it)) && cp <= |f|
      modifies this`cp
      ensures cp == TitlePos(rows, it, i + 1)
    {
      hide Database, FileBytes, TitlePos, Cursor, NextStr, NoPair;
      SkipTo(f, rows, ms, it, m, i, j, cp - Behind(it));
      ghost var q, a, e := cp, TitlePos(rows, it, i), TitlePos(rows, it, i + 1);
      cp := cp + 1;
      SkipEnds(f, it, a, q, e, cp);
      while f[cp - 1] != 0 || (!iteration.Desc? && f[cp - 2] != 0)
        invariant q < cp <= e
        invariant cp == e <==> f[cp - 1] == 0 && (it.Desc? || (cp >= 2 && f[cp - 2] == 0))
        invariant !it.Desc? && f[cp - 1] == 0 ==> cp >= 2
        decreases e - cp
      {
        cp := cp + 1;
        SkipEnds(f, it, a, q, e, cp);
      }
    }

    // Advance to the next matching string.
    method Search() returns (ghost j: nat)
      requires Valid() && ByTitle(iteration)
      modifies this`cp, this`ip
      ensures ip <= npages && Hits(rows, iteration, matching, ip) == old(Todo())
      ensures
        var q := Behind(iteration);
        ip < npages ==>
          q <= cp <= |f| && Cursor(rows, iteration, matching, ip, j, cp - q) && matching(StrAt(f, cp))
    {
      hide Database, FileBytes, TitlePos, Cursor, StrAt, NextStr, StringsOf, FirstHit, Hits, RowShape, Title, Bits;
      ghost var todo, it, m := Todo(), iteration, matching;
      j := 0;
      CursorStart(f, rows, ms, it, m, ip, cp);
      while ip < npages
        invariant ip <= npages && Hits(rows, it, m, ip) == todo
        invariant Cursor(rows, it, m, ip, j, cp)
        decreases npages - ip, |f| - cp
      {
        CursorString(f, rows, ms, it, m, ip, j, cp);
        if iteration.Name? {
          cp := cp + 1;
        }
        if matching(StrAt(f, cp)) {
          break;
        }
        CursorNext(f, rows, ms, it, m, ip, j, cp - Behind(it));
        cp := NextStr(f, cp);
        if iteration.Desc? {
          ip := ip + 1;
          j := 0;
        } else if f[cp] == 0 {
          cp := cp + 1;
          ip := ip + 1;
          j := 0;
        } else {
          j := j + 1;
        }
      }
    }

    // Find the next page of such an iteration.
    method NextByTitle() returns (res: Res)
      requires Valid() && ByTitle(iteration)
      modifies this
      ensures Valid() && Gives(old(Todo()), res, Todo())
    {
      hide Database, FileBytes, TitlePos, Cursor, StrAt, NextStr, StringsOf, FirstHit, Hits, RowShape, Title, Bits;
      ghost var it, m := iteration, matching;
      ghost var j := Search();
      if ip == npages {
        NoHits(rows, it, m);
        iteration := None_;
        return NO_PAGE;
      }
      CursorHit(f, rows, ms, it, m, ip, j, cp - Behind(it));
      res := Res(ip, if iteration.Name? then Signed(f[cp - 1]) else 0);
      ip := ip + 1;
      if ip < npages {
        SkipPage(it, m, ip - 1, j);
      }
    }

    // Start an iteration over all pages having a certain architecture.
    method StartByArch(m: Match)
      requires Valid()
      modifies this`iteration, this`matching, this`archIp
      ensures Valid() && Todo() == Hits(rows, Arch, m, 0)
    {
      iteration, matching, archIp := Arch, m, 0;
    }

    method NextByArch() returns (res: Res)
      requires Valid() && iteration.Arch?
      modifies this`iteration, this`archIp
      ensures Valid() && Gives(old(Todo()), res, Todo())
    {
      hide Database, FileBytes, TitlePos, At, ListBytes, Offset, StrAt, NextStr, RowShape, StringsOf, FirstHit;
      hide Hits, MapInt;
      ghost var m := matching;
      while archIp < npages
        invariant iteration.Arch? && archIp <= npages && Hits(rows, Arch, m, archIp) == old(Todo())
      {
        ghost var l := StringsOf(rows[archIp], Arch);
        ArchStep(rows, m, archIp);
        ArchAt(f, rows, ms, archIp);
        var o := MapInt(f, PageAddr(archIp) + 8);
        if o != 0 {
          var found := MatchesAny(Get(f, o).value, l);
          if found {
            res := Res(archIp, 0);
            archIp := archIp + 1;
            return;
          }
        }
        archIp := archIp + 1;
      }
      NoHits(rows, Arch, m);
      iteration := None_;
      res := NO_PAGE;
    }

    // Does any string of the list l at offset o match?
    method MatchesAny(o: nat, ghost l: seq<Str>) returns (found: bool)
      requires At(f, o, ListBytes(l)) && ListOk(l)
      ensures found <==> FirstHit(l, Arch, matching, 0) < |l|
    {
      hide At, ListBytes, Offset, StrAt, NextStr, ListOk, FirstHit;
      var p := o;
      ghost var j: nat := 0;
      OffsetStart(StrItems(l));
      ArchString(f, o, l, matching, 0);
      while f[p] != 0
        invariant j <= |l| && p == o + Offset(StrItems(l), j) && p < |f| && (f[p] == 0 <==> j == |l|)
        invariant FirstHit(l, Arch, matching, 0) == FirstHit(l, Arch, matching, j)
        decreases |l| - j
      {
        ArchString(f, o, l, matching, j);
        if matching(StrAt(f, p)) {
          return true;
        }
        ArchString(f, o, l, matching, j + 1);
        p := NextStr(f, p);
        j := j + 1;
      }
      found := false;
    }

    // dbm_page_next(), whatever is searched for
    method Next() returns (res: Res)
      requires Valid()
      modifies this
      ensures Valid() && Gives(old(Todo()), res, Todo())
    {
      hide Database, FileBytes, TitlePos, Hits;
      if ByTitle(iteration) {
        res := NextByTitle();
      } else if iteration.Arch? {
        res := NextByArch();
      } else {
        res := NO_PAGE;
      }
    }
  }

  // The static variables of page_bymacro(), for one macro table.
  class MacroQuery {
    const f: Str
    const nval: int
    const macro: nat
    const matching: Match
    ghost const vs: seq<Value>
    ghost const n: nat

    var iteration: Iter
    var iv: int
    var cp: nat
    var pp: Option<nat>
    // pp points to reference pj of value pk
    ghost var pk: nat
    ghost var pj: nat

    // Start an iteration over all pages with certain values of a macro.
    constructor (f: Str, nval: int, macro: nat, m: Match, ghost vs: seq<Value>, ghost n: nat)
      requires TableOpen(f, vs, n, nval, macro)
      ensures Valid() && Todo() == MacroHits(vs, m, 0)
    {
      hide KeyPos, ListPos, TableOpen, MapInt, PagesOf, MacroHits;
      this.f, this.nval, this.macro, matching, this.vs, this.n := f, nval, macro, m, vs, n;
      iteration, iv, pp, pk, pj, cp := Macro, -1, None, 0, 0, 0;
      new;
      TableSize(f, vs, n, nval, macro);
      if nval != 0 {
        ValuePointers(f, vs, n, nval, macro, 0);
        cp := Get(f, MapInt(f, macro)).value;
      }
    }

    ghost predicate Valid()
      reads this
    {
      && TableOpen(f, vs, n, nval, macro) && nval == |vs| && macro >= 4 && -1 <= iv
      && (iteration.Macro? ==>
            && iv < nval && (nval > 0 ==> cp == KeyPos(vs, macro - 4, if iv < 0 then 0 else iv))
            && (pp.Some? ==> pk < |vs| && pj <= |vs[pk].refs| && pp.value == ListPos(vs, macro - 4, pk) + 4 * pj))
    }

    // The pages of the value found last, and those of the values behind it.
    ghost function Todo(): seq<Res>
      requires Valid()
      reads this
    {
      if iteration.Macro? then
        (if pp.None? then [] else PagesOf(vs[pk].refs, pj)) + MacroHits(vs, matching, iv + 1)
      else []
    }

    // Go on to the next value; found tells whether it matches.
    method NextValue()
      requires Valid() && iteration.Macro? && (pp.Some? ==> pj == |vs[pk].refs|)
      modifies this
      ensures Valid() && Todo() == old(Todo()) && iv == old(iv) + 1 && (iteration.Macro? || Todo() == [])
    {
      hide TableOpen, KeyPos, ListPos, MapInt, StrAt, NextStr, PagesOf, MacroHits;
      MacroStep(vs, matching, iv + 1);
      iv := iv + 1;
      if iv == nval {
        iteration := None_;
        return;
      }
      if iv != 0 {
        ValuePointers(f, vs, n, nval, macro, iv - 1);
        cp := NextStr(f, cp);
      }
      ValuePointers(f, vs, n, nval, macro, iv);
      if matching(StrAt(f, cp)) {
        pp := Get(f, MapInt(f, macro + 8 * iv + 4));
        pk, pj := iv, 0;
      }
    }

    method Next() returns (res: Res)
      requires Valid()
      modifies this
      ensures Valid() && Gives(old(Todo()), res, Todo())
    {
      hide TableOpen, KeyPos, ListPos, MapInt, StrAt, NextStr, PageAt, MacroHits, PagesOf, Gives;
      NothingLeft();
      if !iteration.Macro? {
        return NO_PAGE;
      }
      if pp.Some? {
        ListReference(f, vs, n, nval, macro, pk, pj);
      }
      while pp.None? || MapInt(f, pp.value) == 0
        invariant Valid() && iteration.Macro? && Todo() == old(Todo())
        invariant pp.Some? ==> (MapInt(f, pp.value) == 0 <==> pj == |vs[pk].refs|)
        decreases |vs| - iv
      {
        NextValue();
        if !iteration.Macro? {
          return NO_PAGE;
        }
        if pp.Some? {
          ListReference(f, vs, n, nval, macro, pk, pj);
        }
      }
      ListReference(f, vs, n, nval, macro, pk, pj);
      RestStep(vs[pk].refs, pj, MacroHits(vs, matching, iv + 1));
      res := Res(PageAt(Get(f, MapInt(f, pp.value)).value), 0);
      pp := Some(pp.value + 4);
      pj := pj + 1;
    }
  }

  // The static variables of macro_bypage(), for one macro table.
  class ValueQuery {
    const f: Str
    const nval: int
    const macro: nat
    const ip: nat
    ghost const vs: seq<Value>
    ghost const n: nat

    var iv: int
    var pp: Option<nat>

    // Start an iteration over the values of a macro in the page at offset ip.
    constructor (f: Str, nval: int, macro: nat, ip: nat, ghost vs: seq<Value>, ghost n: nat)
      requires TableOpen(f, vs, n, nval, macro) && ip > 0
      ensures Valid() && Todo() == ValuesWith(vs, ip, 0)
    {
      hide KeyPos, ListPos, TableOpen, ValuesWith;
      this.f, this.nval, this.macro, this.ip, this.vs, this.n := f, nval, macro, ip, vs, n;
      iv, pp := 0, Get(f, MapInt(f, macro + 4));
      new;
      TableSize(f, vs, n, nval, macro);
      if nval > 0 {
        ValuePointers(f, vs, n, nval, macro, 0);
      }
    }

    ghost predicate Valid()
      reads this
    {
      && TableOpen(f, vs, n, nval, macro) && nval == |vs| && macro >= 4 && ip > 0
      && 0 <= iv <= nval && (iv < nval ==> pp == Some(ListPos(vs, macro - 4, iv)))
    }

    // The macro values not given yet.
    ghost function Todo(): seq<Str>
      requires Valid()
      reads this
    {
      ValuesWith(vs, ip, iv)
    }

    // Search for the page; if it is found, j is its place in the list.
    method Search() returns (ghost j: nat)
      requires Valid()
      modifies this
      ensures 0 <= iv <= nval && ValuesWith(vs, ip, iv) == old(Todo())
      ensures iv < nval ==> j < |vs[iv].refs| && vs[iv].refs[j] == ip && pp == Some(ListPos(vs, macro - 4, iv) + 4 * j)
    {
      hide TableOpen, KeyPos, ListPos, MapInt;
      j := 0;
      while iv < nval
        invariant 0 <= iv <= nval && ValuesWith(vs, ip, iv) == old(Todo())
        invariant iv < nval ==>
                    && j <= |vs[iv].refs| && ip !in vs[iv].refs[..j]
                    && pp == Some(ListPos(vs, macro - 4, iv) + 4 * j)
        decreases |vs| - iv, if iv < |vs| then |vs[iv].refs| - j else 0
      {
        ListReference(f, vs, n, nval, macro, iv, j);
        if MapInt(f, pp.value) == ip {
          break;
        }
        if MapInt(f, pp.value) == 0 {
          ValuePointers(f, vs, n, nval, macro, iv);
          assert vs[iv].refs[..j] == vs[iv].refs;
          iv := iv + 1;
          j := 0;
        } else {
          j := j + 1;
        }
        pp := Some(pp.value + 4);
      }
    }

    // Return the next value.
    method Next() returns (value: Option<Str>)
      requires Valid()
      modifies this
      ensures Valid()
      ensures
        if old(Todo()) == [] then value == None && Todo() == []
        else value == Some(old(Todo())[0]) && Todo() == old(Todo())[1..]
    {
      hide TableOpen, KeyPos, ListPos, MapInt, StrAt;
      ghost var j := Search();
      if iv == nval {
        return None;
      }
      assert vs[iv].refs[j] in vs[iv].refs;
      iv := iv + 1;
      ValuePointers(f, vs, n, nval, macro, iv - 1);
      if iv < nval {
        SkipList(iv - 1, j);
      }
      value := Some(StrAt(f, Get(f, MapInt(f, macro + 8 * (iv - 1))).value));
    }

    // Skip the rest of the page list of value i, from reference j on.
    method SkipList(ghost i: nat, ghost j: nat)
      requires TableOpen(f, vs, n, nval, macro) && nval == |vs| && macro >= 4
      requires i < |vs| && j <= |vs[i].refs| && pp == Some(ListPos(vs, macro - 4, i) + 4 * j)
      modifies this`pp
      ensures pp == Some(ListPos(vs, macro - 4, i + 1))
    {
      hide TableOpen, KeyPos, ListPos, MapInt;
      ghost var k := j;
      ValuePointers(f, vs, n, nval, macro, i);
      ListReference(f, vs, n, nval, macro, i, k);
      while MapInt(f, pp.value) != 0
        invariant k <= |vs[i].refs| && pp == Some(ListPos(vs, macro - 4, i) + 4 * k)
        invariant MapInt(f, pp.value) == 0 <==> k == |vs[i].refs|
        decreases |vs[i].refs| - k
      {
        ListReference(f, vs, n, nval, macro, i, k + 1);
        pp := Some(pp.value + 4);
        k := k + 1;
      }
      pp := Some(pp.value + 4);
    }
  }

  lemma TableSize(f: Str, vs: seq<Value>, n: nat, nval: int, macro: nat)
    requires TableOpen(f, vs, n, nval, macro)
    ensures nval == |vs| && macro >= 4
  {
    hide At, TableBytes;
  }

  lemma ArchStep(rows: seq<Row>, m: Match, i: nat)
    requires Shaped(rows) && i < |rows|
    ensures
      var l := StringsOf(rows[i], Arch);
      && (l == [] ==> FirstHit(l, Arch, m, 0) == 0)
      && Hits(rows, Arch, m, i)
         == (if FirstHit(l, Arch, m, 0) < |l| then [Res(i, 0)] else []) + Hits(rows, Arch, m, i + 1)
  {
    hide RowShape, StringsOf;
  }

  lemma RestStep(refs: seq<nat>, j: nat, more: seq<Res>)
    requires j < |refs|
    ensures Gives(PagesOf(refs, j) + more, Res(PageAt(refs[j]), 0), PagesOf(refs, j + 1) + more)
  {
    hide PageAt;
    assert PagesOf(refs, j) + more == [Res(PageAt(refs[j]), 0)] + (PagesOf(refs, j + 1) + more);
  }

  lemma NothingLeft()
    ensures Gives([], NO_PAGE, [])
  {
  }

  lemma MacroStep(vs: seq<Value>, m: Match, iv: nat)
    ensures iv < |vs| ==>
              MacroHits(vs, m, iv) == (if m(vs[iv].key) then PagesOf(vs[iv].refs, 0) else []) + MacroHits(vs, m, iv + 1)
    ensures iv == |vs| ==> MacroHits(vs, m, iv) == []
  {
  }

  lemma PagesOpened(f: Str, rows: seq<Row>, ms: seq<seq<Value>>, ix: Index)
    requires Database(f, rows, ms) && IndexOf(ix, f)
    ensures ix.npages == |rows| && Shaped(rows) && |ms| == MACRO_MAX == |ix.nvals| == |ix.macros|
  {
    hide FileBytes, Opens;
    WrittenOpens(rows, ms);
  }
}

