// How large the pieces of a database file are: the order of strings and the
// contents of pointers do not matter.
module Sizes {
  import opened Bytes
  import opened Layout

  /*** lists of strings **************************************************/

  // The length of these strings with their terminating NUL bytes.
  function Total(l: seq<Str>): nat {
    if l == [] then 0 else Total(l[..|l| - 1]) + |l[|l| - 1]| + 1
  }

  lemma {:induction false} ListSize(l: seq<Str>)
    ensures |Flatten(StrItems(l))| == Total(l) && |ListBytes(l)| == Total(l) + 1
  {
    if l != [] {
      var n := |l| - 1;
      ListSize(l[..n]);
      assert StrItems(l)[..n] == StrItems(l[..n]);
    }
  }

  lemma {:induction false} TotalRemove(l: seq<Str>, i: nat)
    requires i < |l|
    ensures Total(l) == Total(l[..i] + l[i + 1..]) + |l[i]| + 1
  {
    var n := |l| - 1;
    var rest := l[..i] + l[i + 1..];
    if i == n {
      assert rest == l[..n];
    } else {
      TotalRemove(l[..n], i);
      assert l[..n][..i] + l[..n][i + 1..] == rest[..n - 1];
      assert rest[n - 1] == l[n];
    }
  }

  lemma {:induction false} TotalPermuted(r: seq<Str>, l: seq<Str>)
    requires multiset(r) == multiset(l)
    ensures Total(r) == Total(l)
    decreases |l|
  {
    if l == [] {
      assert |multiset(r)| == 0;
    } else {
      var n := |l| - 1;
      var x := l[n];
      assert l == l[..n] + [x] && x in multiset(r);
      var i :| 0 <= i < |r| && r[i] == x;
      var a, c := r[..i], r[i + 1..];
      assert r == a + [x] + c;
      assert multiset(r) == multiset(a) + multiset{x} + multiset(c) == multiset(a + c) + multiset{x};
      SameRest(multiset(a + c), multiset(l[..n]), x);
      TotalPermuted(a + c, l[..n]);
      TotalRemove(r, i);
    }
  }

  lemma SameRest(a: multiset<Str>, b: multiset<Str>, x: Str)
    requires a + multiset{x} == b + multiset{x}
    ensures a == b
  {
    assert (a + multiset{x}) - multiset{x} == a && (b + multiset{x}) - multiset{x} == b;
  }

  lemma ListPermuted(r: seq<Str>, l: seq<Str>)
    requires multiset(r) == multiset(l)
    ensures |ListBytes(r)| == |ListBytes(l)|
  {
    TotalPermuted(r, l);
    ListSize(r);
    ListSize(l);
  }

  /*** pages *************************************************************/

  lemma {:induction false} FlattenSizes(a: seq<Str>, b: seq<Str>)
    requires |a| <= |b| && forall i :: 0 <= i < |a| ==> |a[i]| == |b[i]|
    ensures |Flatten(a)| <= |Flatten(b)|
    ensures |a| == |b| ==> |Flatten(a)| == |Flatten(b)|
    decreases |b|
  {
    if b != [] {
      var n := |b| - 1;
      FlattenSizes(if |a| == |b| then a[..n] else a, b[..n]);
    }
  }

  // All entries have the same lengths.
  ghost predicate SameSizes(rows: seq<Row>, rows0: seq<Row>) {
    && |rows| == |rows0| && Shaped(rows) && Shaped(rows0)
    && forall i, ie :: 0 <= i < |rows| && 0 <= ie < DBP_MAX ==> |FieldBytes(rows[i][ie])| == |FieldBytes(rows0[i][ie])|
  }

  lemma {:induction false} ColumnsSize(rows: seq<Row>, rows0: seq<Row>, k: nat)
    requires SameSizes(rows, rows0) && Shaped(rows) && Shaped(rows0) && k <= DBP_MAX
    ensures |Columns(rows, k)| == |Columns(rows0, k)|
  {
    hide Column, Flatten, SameSizes, FieldBytes;
    if k > 0 {
      ColumnsSize(rows, rows0, k - 1);
      ColumnSize(rows, rows0, k - 1);
      ColumnMore(rows, k);
      ColumnMore(rows0, k);
    }
  }

  lemma ColumnMore(rows: seq<Row>, k: nat)
    requires Shaped(rows) && 0 < k <= DBP_MAX
    ensures |Columns(rows, k)| == |Columns(rows, k - 1)| + |Flatten(Column(rows, k - 1))|
  {
  }

  lemma ColumnSize(rows: seq<Row>, rows0: seq<Row>, ie: nat)
    requires SameSizes(rows, rows0) && ie < DBP_MAX
    ensures |Flatten(Column(rows, ie))| == |Flatten(Column(rows0, ie))|
  {
    hide Flatten, FieldBytes;
    forall i | 0 <= i < |rows|
      ensures |Column(rows, ie)[i]| == |Column(rows0, ie)[i]|
    {
      assert Column(rows, ie)[i] == FieldBytes(rows[i][ie]) && Column(rows0, ie)[i] == FieldBytes(rows0[i][ie]);
    }
    FlattenSizes(Column(rows, ie), Column(rows0, ie));
  }

  lemma {:induction false} ColumnPosGrows(rows: seq<Row>, o: nat, j: nat, k: nat)
    requires Shaped(rows) && j <= k <= DBP_MAX
    ensures ColumnPos(rows, o, j) <= ColumnPos(rows, o, k)
    ensures j < DBP_MAX ==> ColumnPos(rows, o, j + 1) == ColumnPos(rows, o, j) + |Flatten(Column(rows, j))|
    decreases k
  {
    hide Column;
    if j < k {
      ColumnPosGrows(rows, o, j, k - 1);
    }
  }

  lemma PagesSize(rows: seq<Row>, o: nat)
    requires Shaped(rows)
    ensures o + |PagesBytes(rows, o)| == ColumnPos(rows, o, DBP_MAX) + PadLen(ColumnPos(rows, o, DBP_MAX))
  {
    hide Columns;
    FlattenLength(PointerItems(rows, o), 20);
  }

  // Sorting the entries does not change the size of the file.
  lemma SameEnd(rows: seq<Row>, rows0: seq<Row>, ms: seq<seq<Value>>)
    requires SameSizes(rows, rows0)
    ensures MacrosPos(rows) == MacrosPos(rows0) && EndPos(rows, ms) == EndPos(rows0, ms)
  {
    hide PagesBytes, MacrosBytes, FieldBytes, Columns;
    PagesSize(rows, 16);
    PagesSize(rows0, 16);
    SamePos(rows, rows0, 16);
  }

  lemma SamePos(rows: seq<Row>, rows0: seq<Row>, o: nat)
    requires SameSizes(rows, rows0)
    ensures ColumnPos(rows, o, DBP_MAX) == ColumnPos(rows0, o, DBP_MAX)
  {
    hide FieldBytes, Columns;
    ColumnsSize(rows, rows0, DBP_MAX);
  }

  /*** macro tables ********************************************************/

  lemma {:induction false} IntsAligned(items: seq<Str>)
    requires forall i :: 0 <= i < |items| ==> |items[i]| % 4 == 0
    ensures |Flatten(items)| % 4 == 0
  {
    if items != [] {
      IntsAligned(items[..|items| - 1]);
    }
  }

  lemma TableSize(vs: seq<Value>, o: nat)
    ensures o + |TableBytes(vs, o)| == KeysEnd(vs, o) + PadLen(KeysEnd(vs, o)) + |Flatten(PageLists(vs))|
    ensures (o + |TableBytes(vs, o)|) % 4 == 0
  {
    hide Flatten, StrItems, Keys, PageLists;
    FlattenLength(PairItems(vs, o), 8);
    IntsAligned(PageLists(vs));
  }

  lemma {:induction false} TablesGrow(ms: seq<seq<Value>>, o: nat, j: nat, k: nat)
    requires j <= k <= |ms|
    ensures |Tables(ms, o, j)| <= |Tables(ms, o, k)|
    ensures j < |ms| ==> Tables(ms, o, j + 1) == Tables(ms, o, j) + TableBytes(ms[j], o + |Tables(ms, o, j)|)
  {
    hide TableBytes;
    if j < k {
      TablesGrow(ms, o, j, k - 1);
    }
  }

  // The macros table ends with the table of the last macro.
  lemma MacrosSize(ms: seq<seq<Value>>, o: nat, j: nat)
    requires j <= |ms|
    ensures
      var t := o + 4 + 4 * |ms|;
      && o + |MacrosBytes(ms, o)| == t + |Tables(ms, t, |ms|)| >= t + |Tables(ms, t, j)|
      && (j < |ms| ==>
            t + |Tables(ms, t, j)| + |TableBytes(ms[j], t + |Tables(ms, t, j)|)| <= o + |MacrosBytes(ms, o)|)
  {
    hide Tables, TableBytes;
    var t := o + 4 + 4 * |ms|;
    TablesGrow(ms, t, j, |ms|);
    if j < |ms| {
      TablesGrow(ms, t, j + 1, |ms|);
    }
  }

  // The end of all tables always is a multiple of four.
  lemma EndAligned(rows: seq<Row>, ms: seq<seq<Value>>)
    requires Shaped(rows) && |ms| > 0
    ensures EndPos(rows, ms) % 4 == 0
  {
    hide Tables, TableBytes, PagesBytes, MacrosBytes;
    var o, n := MacrosPos(rows), |ms|;
    var t := o + 4 + 4 * n;
    MacrosSize(ms, o, n);
    TablesGrow(ms, t, n - 1, n);
    TableSize(ms[n - 1], t + |Tables(ms, t, n - 1)|);
  }
}
