// The format of the mandoc database file, as described in the comments of
// userland/mandoc/dba.c: which bytes the writer produces for given pages and
// macro tables, and where every item starts.
module Layout {
  import opened Bytes

  const MAGIC: nat := 0x3a7d0cdb
  const VERSION: nat := 1
  const MACRO_MAX: nat := 36

  const DBP_NAME: nat := 0
  const DBP_SECT: nat := 1
  const DBP_ARCH: nat := 2
  const DBP_DESC: nat := 3
  const DBP_FILE: nat := 4
  const DBP_MAX: nat := 5

  /*** pages ***********************************************************/

  // One entry of a page: a list of strings, a string, or the NULL pointer
  // that stands for the architectures of a machine-independent page.
  datatype Field = Strings(l: seq<Str>) | Text(s: Str) | Null

  // A page: names with mask byte, sections, architectures, description,
  // and files, the first of them with form byte.
  type Row = seq<Field>

  predicate RowShape(row: Row) {
    && |row| == DBP_MAX
    && row[DBP_NAME].Strings? && row[DBP_SECT].Strings?
    && !row[DBP_ARCH].Text? && row[DBP_DESC].Text? && row[DBP_FILE].Strings?
  }

  // No string contains NUL bytes, and no string in a list is empty.
  predicate FieldOk(f: Field) {
    match f
    case Strings(l) => ListOk(l)
    case Text(s) => NoNul(s)
    case Null => true
  }

  predicate RowOk(row: Row) {
    RowShape(row) && forall ie :: 0 <= ie < DBP_MAX ==> FieldOk(row[ie])
  }

  predicate Shaped(rows: seq<Row>) {
    forall i {:trigger rows[i]} :: 0 <= i < |rows| ==> RowShape(rows[i])
  }

  predicate RowsOk(rows: seq<Row>) {
    forall i :: 0 <= i < |rows| ==> RowOk(rows[i])
  }

  function FieldBytes(f: Field): Str {
    match f
    case Strings(l) => ListBytes(l)
    case Text(s) => StrBytes(s)
    case Null => []
  }

  function Column(rows: seq<Row>, ie: nat): (items: seq<Str>)
    requires ie < DBP_MAX && Shaped(rows)
    ensures |items| == |rows|
  {
    seq(|rows|, i requires 0 <= i < |rows| => FieldBytes(rows[i][ie]))
  }

  // The first k columns.
  function Columns(rows: seq<Row>, k: nat): Str
    requires k <= DBP_MAX && Shaped(rows)
  {
    if k == 0 then [] else Columns(rows, k - 1) + Flatten(Column(rows, k - 1))
  }

  // Where column ie of a pages table that starts at offset o starts.
  function ColumnPos(rows: seq<Row>, o: nat, ie: nat): nat
    requires ie <= DBP_MAX && Shaped(rows)
  {
    o + 4 + 20 * |rows| + |Columns(rows, ie)|
  }

  // The pointer to entry ie of page i; 0 stands for NULL.
  function FieldPos(rows: seq<Row>, o: nat, i: nat, ie: nat): nat
    requires i < |rows| && ie < DBP_MAX && Shaped(rows)
  {
    if rows[i][ie].Null? then 0 else ColumnPos(rows, o, ie) + Offset(Column(rows, ie), i)
  }

  function Pointers(rows: seq<Row>, o: nat, i: nat): (ps: seq<nat>)
    requires i < |rows| && Shaped(rows)
    ensures |ps| == DBP_MAX
  {
    seq(DBP_MAX, ie requires 0 <= ie < DBP_MAX => FieldPos(rows, o, i, ie))
  }

  function PointerItems(rows: seq<Row>, o: nat): (items: seq<Str>)
    requires Shaped(rows)
    ensures |items| == |rows|
    ensures forall i :: 0 <= i < |rows| ==> |items[i]| == 20
  {
    seq(|rows|, i requires 0 <= i < |rows| => Ints(Pointers(rows, o, i)))
  }

  // The pages table, starting at offset o.
  function PagesBytes(rows: seq<Row>, o: nat): Str
    requires Shaped(rows)
  {
    IntBytes(|rows|) + Flatten(PointerItems(rows, o)) + Columns(rows, DBP_MAX)
    + Zeros(PadLen(ColumnPos(rows, o, DBP_MAX)))
  }

  // The offset of the pointers of page i, for the pages table at offset 16.
  function PageAddr(i: nat): nat {
    20 + 20 * i
  }

  /*** macros **********************************************************/

  // A macro value with the file offsets of the pages it occurs in.
  datatype Value = Value(key: Str, refs: seq<nat>)

  function Keys(vs: seq<Value>): (r: seq<Str>)
    ensures |r| == |vs|
  {
    seq(|vs|, i requires 0 <= i < |vs| => vs[i].key)
  }

  // The page references of each value, each list ending with a 0 integer.
  function PageLists(vs: seq<Value>): (items: seq<Str>)
    ensures |items| == |vs|
    ensures forall i :: 0 <= i < |vs| ==> items[i] == Ints(vs[i].refs + [0])
  {
    seq(|vs|, i requires 0 <= i < |vs| => Ints(vs[i].refs + [0]))
  }

  // Where value i of a macro table at offset o starts.
  function KeyPos(vs: seq<Value>, o: nat, i: nat): nat
    requires i <= |vs|
  {
    o + 4 + 8 * |vs| + Offset(StrItems(Keys(vs)), i)
  }

  function KeysEnd(vs: seq<Value>, o: nat): nat {
    o + 4 + 8 * |vs| + |Flatten(StrItems(Keys(vs)))|
  }

  // Where the page list of value i starts.
  function ListPos(vs: seq<Value>, o: nat, i: nat): nat
    requires i <= |vs|
  {
    KeysEnd(vs, o) + PadLen(KeysEnd(vs, o)) + Offset(PageLists(vs), i)
  }

  function PairItems(vs: seq<Value>, o: nat): (items: seq<Str>)
    ensures |items| == |vs|
    ensures forall i :: 0 <= i < |vs| ==> items[i] == Ints([KeyPos(vs, o, i), ListPos(vs, o, i)]) && |items[i]| == 8
  {
    seq(|vs|, i requires 0 <= i < |vs| => Ints([KeyPos(vs, o, i), ListPos(vs, o, i)]))
  }

  // The table of one macro, starting at offset o.
  function TableBytes(vs: seq<Value>, o: nat): Str {
    IntBytes(|vs|) + Flatten(PairItems(vs, o)) + Flatten(StrItems(Keys(vs)))
    + Zeros(PadLen(KeysEnd(vs, o))) + Flatten(PageLists(vs))
  }

  // The tables of the first k macros, the first one starting at offset o.
  function Tables(ms: seq<seq<Value>>, o: nat, k: nat): Str
    requires k <= |ms|
  {
    if k == 0 then []
    else Tables(ms, o, k - 1) + TableBytes(ms[k - 1], o + |Tables(ms, o, k - 1)|)
  }

  // Where the table of macro k starts, for a macros table at offset o.
  function MacroPos(ms: seq<seq<Value>>, o: nat, k: nat): nat
    requires k <= |ms|
  {
    o + 4 + 4 * |ms| + |Tables(ms, o + 4 + 4 * |ms|, k)|
  }

  function MacroPositions(ms: seq<seq<Value>>, o: nat): (ps: seq<nat>)
    ensures |ps| == |ms|
    ensures forall i :: 0 <= i < |ms| ==> ps[i] == MacroPos(ms, o, i)
  {
    seq(|ms|, i requires 0 <= i < |ms| => MacroPos(ms, o, i))
  }

  // The macros table, starting at offset o.
  function MacrosBytes(ms: seq<seq<Value>>, o: nat): Str {
    IntBytes(|ms|) + Ints(MacroPositions(ms, o)) + Tables(ms, o + 4 + 4 * |ms|, |ms|)
  }

  /*** the file ********************************************************/

  function MacrosPos(rows: seq<Row>): nat
    requires Shaped(rows)
  {
    16 + |PagesBytes(rows, 16)|
  }

  function EndPos(rows: seq<Row>, ms: seq<seq<Value>>): nat
    requires Shaped(rows)
  {
    MacrosPos(rows) + |MacrosBytes(ms, MacrosPos(rows))|
  }

  function FileBytes(rows: seq<Row>, ms: seq<seq<Value>>): Str
    requires Shaped(rows)
  {
    IntBytes(MAGIC) + IntBytes(VERSION) + IntBytes(MacrosPos(rows)) + IntBytes(EndPos(rows, ms))
    + PagesBytes(rows, 16) + MacrosBytes(ms, MacrosPos(rows)) + IntBytes(MAGIC)
  }
}
