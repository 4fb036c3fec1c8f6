// Where the items of a written database file are found.
module Locate {
  import opened Bytes
  import opened Layout

  lemma FourPieces(f: Str, o: nat, a: Str, b: Str, c: Str, d: Str)
    requires At(f, o, a + b + c + d)
    ensures At(f, o, a) && At(f, o + |a|, b) && At(f, o + |a| + |b|, c) && At(f, o + |a| + |b| + |c|, d)
  {
    AtSplit(f, o, a + b + c, d);
    AtSplit(f, o, a + b, c);
    AtSplit(f, o, a, b);
  }

  // The parts of the file.
  lemma FileParts(rows: seq<Row>, ms: seq<seq<Value>>)
    requires Shaped(rows)
    ensures
      var f := FileBytes(rows, ms);
      && |f| == EndPos(rows, ms) + 4
      && At(f, 0, IntBytes(MAGIC)) && At(f, 4, IntBytes(VERSION))
      && At(f, 8, IntBytes(MacrosPos(rows))) && At(f, 12, IntBytes(EndPos(rows, ms)))
      && At(f, 16, PagesBytes(rows, 16)) && At(f, MacrosPos(rows), MacrosBytes(ms, MacrosPos(rows)))
      && At(f, EndPos(rows, ms), IntBytes(MAGIC))
  {
    hide IntBytes, PagesBytes, MacrosBytes;
    var f := FileBytes(rows, ms);
    AtWhole(f);
    var head := IntBytes(MAGIC) + IntBytes(VERSION) + IntBytes(MacrosPos(rows)) + IntBytes(EndPos(rows, ms));
    FourPieces(f, 0, head, PagesBytes(rows, 16), MacrosBytes(ms, MacrosPos(rows)), IntBytes(MAGIC));
    FourPieces(f, 0, IntBytes(MAGIC), IntBytes(VERSION), IntBytes(MacrosPos(rows)), IntBytes(EndPos(rows, ms)));
  }

  lemma PointersLength(rows: seq<Row>, o: nat)
    requires Shaped(rows)
    ensures |Flatten(PointerItems(rows, o))| == 20 * |rows|
  {
    FlattenLength(PointerItems(rows, o), 20);
  }

  // The parts of a pages table.
  lemma PagesParts(f: Str, rows: seq<Row>, o: nat)
    requires Shaped(rows) && At(f, o, PagesBytes(rows, o))
    ensures At(f, o, IntBytes(|rows|)) && At(f, o + 4, Flatten(PointerItems(rows, o)))
    ensures At(f, o + 4 + 20 * |rows|, Columns(rows, DBP_MAX))
  {
    hide IntBytes, Flatten, PointerItems, Columns, At, PadLen, ColumnPos, Zeros, Shaped;
    PointersLength(rows, o);
    var a, b, c := IntBytes(|rows|), Flatten(PointerItems(rows, o)), Columns(rows, DBP_MAX);
    AtSplit(f, o, a + b + c, Zeros(PadLen(ColumnPos(rows, o, DBP_MAX))));
    AtSplit(f, o, a + b, c);
    AtSplit(f, o, a, b);
    assert |a + b| == 4 + 20 * |rows|;
  }

  lemma {:induction false} ColumnAt(f: Str, p: nat, rows: seq<Row>, k: nat, ie: nat)
    requires Shaped(rows) && ie < k <= DBP_MAX && At(f, p, Columns(rows, k))
    ensures At(f, p + |Columns(rows, ie)|, Flatten(Column(rows, ie)))
  {
    hide Flatten, Column;
    AtSplit(f, p, Columns(rows, k - 1), Flatten(Column(rows, k - 1)));
    if ie < k - 1 {
      ColumnAt(f, p, rows, k - 1, ie);
    }
  }

  // Each pointer of the pages table gives the offset of its entry.
  lemma FieldAt(f: Str, rows: seq<Row>, o: nat, i: nat, ie: nat)
    requires Shaped(rows) && At(f, o, PagesBytes(rows, o)) && i < |rows| && ie < DBP_MAX
    requires |f| <= INT32_MAX
    ensures o + 4 + 20 * i + 4 * ie + 4 <= |f|
    ensures IntAt(f, o + 4 + 20 * i + 4 * ie) == FieldPos(rows, o, i, ie)
    ensures
      var p := ColumnPos(rows, o, ie) + Offset(Column(rows, ie), i);
      At(f, p, FieldBytes(rows[i][ie]))
  {
    hide PagesBytes, FieldPos, Columns, Ints, Flatten, Column, FieldBytes;
    ColumnPiece(rows, ie, i);
    PagesParts(f, rows, o);
    ColumnAt(f, o + 4 + 20 * |rows|, rows, DBP_MAX, ie);
    AtPiece(f, ColumnPos(rows, o, ie), Column(rows, ie), i);
    PointerOffset(rows, o, i);
    AtPiece(f, o + 4, PointerItems(rows, o), i);
    FieldPosFits(f, rows, o, i, ie);
    IntsAt(f, o + 4 + 20 * i, Pointers(rows, o, i), ie);
  }

  lemma ColumnPiece(rows: seq<Row>, ie: nat, i: nat)
    requires Shaped(rows) && i < |rows| && ie < DBP_MAX
    ensures Column(rows, ie)[i] == FieldBytes(rows[i][ie])
  {
  }

  lemma FieldPosFits(f: Str, rows: seq<Row>, o: nat, i: nat, ie: nat)
    requires Shaped(rows) && i < |rows| && ie < DBP_MAX && |f| <= INT32_MAX
    requires At(f, ColumnPos(rows, o, ie) + Offset(Column(rows, ie), i), FieldBytes(rows[i][ie]))
    ensures FieldPos(rows, o, i, ie) <= INT32_MAX
  {
  }

  lemma PointerOffset(rows: seq<Row>, o: nat, i: nat)
    requires Shaped(rows) && i <= |rows|
    ensures Offset(PointerItems(rows, o), i) == 20 * i
  {
    FlattenLength(PointerItems(rows, o)[..i], 20);
  }

  lemma {:induction false} TableAt(f: Str, p: nat, ms: seq<seq<Value>>, k: nat, im: nat)
    requires im < k <= |ms| && At(f, p, Tables(ms, p, k))
    ensures At(f, p + |Tables(ms, p, im)|, TableBytes(ms[im], p + |Tables(ms, p, im)|))
  {
    hide TableBytes;
    var t := TableBytes(ms[k - 1], p + |Tables(ms, p, k - 1)|);
    AtSplit(f, p, Tables(ms, p, k - 1), t);
    if im < k - 1 {
      TableAt(f, p, ms, k - 1, im);
    }
  }

  // Each pointer of the macros table gives the offset of a table.
  lemma MacroAt(f: Str, ms: seq<seq<Value>>, o: nat, im: nat)
    requires At(f, o, MacrosBytes(ms, o)) && im < |ms| && |f| <= INT32_MAX
    ensures At(f, o, IntBytes(|ms|)) && o + 4 + 4 * im + 4 <= |f|
    ensures IntAt(f, o + 4 + 4 * im) == MacroPos(ms, o, im)
    ensures At(f, MacroPos(ms, o, im), TableBytes(ms[im], MacroPos(ms, o, im)))
    ensures MacroPos(ms, o, im) + 4 <= |f|
  {
    hide Ints, Tables, TableBytes, IntBytes;
    var t := Tables(ms, o + 4 + 4 * |ms|, |ms|);
    AtSplit(f, o, IntBytes(|ms|) + Ints(MacroPositions(ms, o)), t);
    AtSplit(f, o, IntBytes(|ms|), Ints(MacroPositions(ms, o)));
    TableAt(f, o + 4 + 4 * |ms|, ms, |ms|, im);
    TableNotEmpty(ms[im], MacroPos(ms, o, im));
    IntsAt(f, o + 4, MacroPositions(ms, o), im);
  }

  lemma TableNotEmpty(vs: seq<Value>, o: nat)
    ensures |TableBytes(vs, o)| >= 4
  {
  }

  // The parts of one macro table.
  lemma TableParts(f: Str, vs: seq<Value>, o: nat)
    requires At(f, o, TableBytes(vs, o))
    ensures At(f, o, IntBytes(|vs|)) && At(f, o + 4, Flatten(PairItems(vs, o)))
    ensures At(f, KeyPos(vs, o, 0), Flatten(StrItems(Keys(vs)))) && At(f, ListPos(vs, o, 0), Flatten(PageLists(vs)))
  {
    hide IntBytes, Flatten, PairItems, StrItems, PageLists;
    FlattenLength(PairItems(vs, o), 8);
    var k, z, l := Flatten(StrItems(Keys(vs))), Zeros(PadLen(KeysEnd(vs, o))), Flatten(PageLists(vs));
    FourPieces(f, o, IntBytes(|vs|) + Flatten(PairItems(vs, o)), k, z, l);
    AtSplit(f, o, IntBytes(|vs|), Flatten(PairItems(vs, o)));
    OffsetStart(StrItems(Keys(vs)));
    OffsetStart(PageLists(vs));
  }

  // The pointer pair of value i gives the offsets of the value and of its
  // page list.
  lemma ValueAt(f: Str, vs: seq<Value>, o: nat, i: nat)
    requires At(f, o, TableBytes(vs, o)) && i < |vs| && |f| <= INT32_MAX
    ensures o + 4 + 8 * i + 8 <= |f|
    ensures IntAt(f, o + 4 + 8 * i) == KeyPos(vs, o, i) && IntAt(f, o + 4 + 8 * i + 4) == ListPos(vs, o, i)
    ensures At(f, KeyPos(vs, o, i), StrBytes(vs[i].key))
    ensures KeyPos(vs, o, i + 1) == KeyPos(vs, o, i) + |vs[i].key| + 1
    ensures At(f, ListPos(vs, o, i), Ints(vs[i].refs + [0]))
    ensures ListPos(vs, o, i + 1) == ListPos(vs, o, i) + 4 * |vs[i].refs| + 4
  {
    hide IntBytes, Flatten, TableBytes, Ints;
    TableParts(f, vs, o);
    OffsetStart(StrItems(Keys(vs)));
    OffsetStart(PageLists(vs));
    AtPiece(f, KeyPos(vs, o, 0), StrItems(Keys(vs)), i);
    AtPiece(f, ListPos(vs, o, 0), PageLists(vs), i);
    PairOffset(vs, o, i);
    AtPiece(f, o + 4, PairItems(vs, o), i);
    IntsAt(f, o + 4 + 8 * i, [KeyPos(vs, o, i), ListPos(vs, o, i)], 0);
    IntsAt(f, o + 4 + 8 * i, [KeyPos(vs, o, i), ListPos(vs, o, i)], 1);
  }

  lemma PairOffset(vs: seq<Value>, o: nat, i: nat)
    requires i <= |vs|
    ensures Offset(PairItems(vs, o), i) == 8 * i
  {
    FlattenLength(PairItems(vs, o)[..i], 8);
  }

  // Entry j of the page list of value i, and the 0 at its end.
  lemma RefAt(f: Str, vs: seq<Value>, o: nat, i: nat, j: nat)
    requires At(f, o, TableBytes(vs, o)) && i < |vs| && |f| <= INT32_MAX
    requires j <= |vs[i].refs| && forall x :: 0 <= x < |vs[i].refs| ==> vs[i].refs[x] <= INT32_MAX
    ensures ListPos(vs, o, i) + 4 * j + 4 <= |f|
    ensures IntAt(f, ListPos(vs, o, i) + 4 * j) == if j < |vs[i].refs| then vs[i].refs[j] else 0
  {
    ValueAt(f, vs, o, i);
    IntsAt(f, ListPos(vs, o, i), vs[i].refs + [0], j);
  }

  // Entry ie of page i: its pointer, and the bytes it points to.
  lemma FieldInFile(rows: seq<Row>, ms: seq<seq<Value>>, i: nat, ie: nat)
    requires Shaped(rows) && i < |rows| && ie < DBP_MAX && |FileBytes(rows, ms)| <= INT32_MAX
    ensures
      var f, p := FileBytes(rows, ms), FieldPos(rows, 16, i, ie);
      && PageAddr(i) + 4 * ie + 4 <= |f| && IntAt(f, PageAddr(i) + 4 * ie) == p
      && (!rows[i][ie].Null? ==> 20 <= p < |f| && At(f, p, FieldBytes(rows[i][ie])))
  {
    hide PagesBytes, MacrosBytes, FileBytes, FieldBytes, IntBytes, Offset, Column;
    FileParts(rows, ms);
    FieldAt(FileBytes(rows, ms), rows, 16, i, ie);
    FieldNotEmpty(rows[i][ie]);
  }

  lemma FieldNotEmpty(fd: Field)
    ensures !fd.Null? ==> |FieldBytes(fd)| >= 1
  {
  }
}
