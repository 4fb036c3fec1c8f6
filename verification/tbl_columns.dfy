// Column widths of a table: tblcalc() in userland/mandoc/out.c.
module TblColumns {
  import opened TblLevels

  // A cell of a data row: its column, how many more columns it spans, its
  // layout, and the width its contents need.
  datatype Cell = Cell(col: nat, hspans: nat, ignore: bool, equal: bool, wmax: bool,
                       width: nat, spacing: nat, auto: nat)

  // More than what cells can ask for in all.
  function Demand(cells: seq<Cell>): nat {
    if cells == [] then 1
    else Demand(cells[..|cells| - 1]) + cells[|cells| - 1].width + cells[|cells| - 1].auto
  }

  function DemandOf(rows: seq<seq<Cell>>): nat {
    if rows == [] then 0 else DemandOf(rows[..|rows| - 1]) + Demand(rows[|rows| - 1])
  }

  // The columns after a cell: those up to its last one are in use from now
  // on, and its first one gets what the cell asks for.
  function Accounted(cs: seq<Column>, maxcol: int, c: Cell): (r: seq<Column>)
    requires c.col + c.hspans < |cs|
    ensures |r| == |cs|
  {
    seq(|cs|, i requires 0 <= i < |cs| =>
      var k := if maxcol < i <= c.col + c.hspans then cs[i].(spacing := SIZE_MAX) else cs[i];
      if i == c.col then Asked(k, c) else k)
  }

  function Max(a: nat, b: nat): nat {
    if a < b then b else a
  }

  function Asked(k: Column, c: Cell): Column {
    var k := k.(equal := k.equal || c.equal, wmax := k.wmax || c.wmax);
    if c.ignore then k
    else
      k.(width := Max(k.width, Max(c.width, if c.hspans == 0 then c.auto else 0)),
         spacing := if c.spacing == SIZE_MAX then k.spacing
                    else if k.spacing == SIZE_MAX then c.spacing else Max(k.spacing, c.spacing))
  }

  function MaxcolAfter(maxcol: int, c: Cell): int {
    if maxcol < c.col + c.hspans then c.col + c.hspans else maxcol
  }

  function AccountedAll(cs: seq<Column>, maxcol: int, cells: seq<Cell>): (r: (seq<Column>, int))
    requires forall k :: 0 <= k < |cells| ==> cells[k].col + cells[k].hspans < |cs|
    ensures |r.0| == |cs|
  {
    if cells == [] then (cs, maxcol)
    else
      var r := AccountedAll(cs, maxcol, cells[..|cells| - 1]);
      var c := cells[|cells| - 1];
      (Accounted(r.0, r.1, c), MaxcolAfter(r.1, c))
  }

  // Does the cell ask for width w in column i?
  predicate AsksFor(c: Cell, i: nat, w: nat) {
    c.col == i && !c.ignore && (w == c.width || (c.hspans == 0 && w == c.auto))
  }

  // A column becomes exactly as wide as the most demanding of its cells.
  lemma {:induction false} WidestCell(cs: seq<Column>, maxcol: int, cells: seq<Cell>, i: nat)
    requires i < |cs| && forall k :: 0 <= k < |cells| ==> cells[k].col + cells[k].hspans < |cs|
    ensures
      var w := AccountedAll(cs, maxcol, cells).0[i].width;
      && w >= cs[i].width
      && (forall k, v :: 0 <= k < |cells| && AsksFor(cells[k], i, v) ==> w >= v)
      && (w == cs[i].width || exists k :: 0 <= k < |cells| && AsksFor(cells[k], i, w))
  {
    if cells != [] {
      var n := |cells| - 1;
      WidestCell(cs, maxcol, cells[..n], i);
      var before := AccountedAll(cs, maxcol, cells[..n]).0[i].width;
      var w := AccountedAll(cs, maxcol, cells).0[i].width;
      if w == before {
        if w != cs[i].width {
          var k :| 0 <= k < n && AsksFor(cells[..n][k], i, w);
          assert AsksFor(cells[k], i, w);
        }
      } else {
        assert AsksFor(cells[n], i, w);
      }
      forall k, v | 0 <= k < |cells| && AsksFor(cells[k], i, v)
        ensures w >= v
      {
        if k < n {
          assert AsksFor(cells[..n][k], i, v);
        }
      }
    }
  }

  // Is the spacing v asked for by the cell behind column i?
  predicate SpacingFor(c: Cell, i: nat, v: nat) {
    c.col == i && !c.ignore && c.spacing == v != SIZE_MAX
  }

  // The spacing of a column before any cell asks for one: a column that comes
  // into use starts without any.
  function Untouched(cs: seq<Column>, maxcol: int, used: int, i: nat): nat
    requires i < |cs|
  {
    if maxcol < i <= used then SIZE_MAX else cs[i].spacing
  }

  // A column gets the largest of the spacings that cells ask for behind it,
  // and SIZE_MAX remains in a column in use if no cell asks for any.
  lemma {:induction false} LargestSpacing(cs: seq<Column>, maxcol: int, cells: seq<Cell>, i: nat)
    requires i < |cs| && forall k :: 0 <= k < |cells| ==> cells[k].col + cells[k].hspans < |cs|
    ensures
      var r := AccountedAll(cs, maxcol, cells);
      var s, s0 := r.0[i].spacing, Untouched(cs, maxcol, r.1, i);
      && (forall k, v: nat :: 0 <= k < |cells| && SpacingFor(cells[k], i, v) ==> v <= s != SIZE_MAX)
      && (s0 != SIZE_MAX ==> s0 <= s != SIZE_MAX)
      && (s == s0 || exists k :: 0 <= k < |cells| && SpacingFor(cells[k], i, s))
  {
    if cells != [] {
      var n := |cells| - 1;
      LargestSpacing(cs, maxcol, cells[..n], i);
      LastUsed(cs, maxcol, cells[..n]);
      var r0, r := AccountedAll(cs, maxcol, cells[..n]), AccountedAll(cs, maxcol, cells);
      var s := r.0[i].spacing;
      if s != Untouched(cs, maxcol, r.1, i) && !SpacingFor(cells[n], i, s) {
        assert s == r0.0[i].spacing;
        var k :| 0 <= k < n && SpacingFor(cells[..n][k], i, s);
        assert SpacingFor(cells[k], i, s);
      }
      forall k, v: nat | 0 <= k < |cells| && SpacingFor(cells[k], i, v)
        ensures v <= s != SIZE_MAX
      {
        if k < n {
          assert SpacingFor(cells[..n][k], i, v);
        }
      }
    }
  }

  // The columns in use are those up to the last one that any cell covers.
  lemma {:induction false} LastUsed(cs: seq<Column>, maxcol: int, cells: seq<Cell>)
    requires forall k :: 0 <= k < |cells| ==> cells[k].col + cells[k].hspans < |cs|
    ensures
      var m := AccountedAll(cs, maxcol, cells).1;
      && m >= maxcol && (forall k :: 0 <= k < |cells| ==> cells[k].col + cells[k].hspans <= m)
      && (m == maxcol || exists k :: 0 <= k < |cells| && cells[k].col + cells[k].hspans == m)
  {
    if cells != [] {
      var n := |cells| - 1;
      LastUsed(cs, maxcol, cells[..n]);
      assert forall k :: 0 <= k < n ==> cells[..n][k] == cells[k];
    }
  }

  // A column is to be equalized or maximized exactly if some cell says so.
  lemma {:induction false} AnyFlag(cs: seq<Column>, maxcol: int, cells: seq<Cell>, i: nat)
    requires i < |cs| && forall k :: 0 <= k < |cells| ==> cells[k].col + cells[k].hspans < |cs|
    ensures
      var k := AccountedAll(cs, maxcol, cells).0[i];
      && (k.equal <==> cs[i].equal || exists c :: c in cells && c.col == i && c.equal)
      && (k.wmax <==> cs[i].wmax || exists c :: c in cells && c.col == i && c.wmax)
  {
    if cells != [] {
      var n := |cells| - 1;
      AnyFlag(cs, maxcol, cells[..n], i);
      assert forall c :: c in cells <==> c in cells[..n] || c == cells[n];
    }
  }

  type Span = (nat, nat)

  function SpanOf(g: Group): Span {
    (g.start, g.end)
  }

  function CellSpan(c: Cell): Span {
    (c.col, c.col + c.hspans)
  }

  /*** the list of groups ***************************************************/

  predicate Dominates(a: Span, b: Span) {
    a.0 >= b.0 && a.1 >= b.1
  }

  // No group dominates a later one.
  ghost predicate Arranged(gs: seq<Group>) {
    forall i, j :: 0 <= i < j < |gs| ==> !Dominates(SpanOf(gs[i]), SpanOf(gs[j]))
  }

  // The spans seen so far with the largest width each of them wanted.
  type Wants = map<Span, nat>

  ghost predicate Records(gs: seq<Group>, wants: Wants) {
    && (forall i {:trigger gs[i]} :: 0 <= i < |gs| ==> SpanOf(gs[i]) in wants && gs[i].wanted == wants[SpanOf(gs[i])])
    && (forall s :: s in wants ==> exists i :: 0 <= i < |gs| && SpanOf(gs[i]) == s)
  }

  function Noted(wants: Wants, c: Cell): Wants {
    if c.ignore || c.hspans == 0 then wants
    else if CellSpan(c) in wants && wants[CellSpan(c)] >= c.auto then wants
    else wants[CellSpan(c) := c.auto]
  }

  function NotedAll(wants: Wants, cells: seq<Cell>): Wants {
    if cells == [] then wants else Noted(NotedAll(wants, cells[..|cells| - 1]), cells[|cells| - 1])
  }

  // The cells of a row do not overlap and come from left to right, inside of
  // n columns.
  ghost predicate RowOk(cells: seq<Cell>, n: nat) {
    && (forall i :: 0 <= i < |cells| ==> cells[i].col + cells[i].hspans < n)
    && (forall i, j :: 0 <= i < j < |cells| ==> cells[i].col + cells[i].hspans < cells[j].col)
  }

  // Every group before the cursor starts or ends left of span s.
  ghost predicate Behind(gs: seq<Group>, gp: nat, s: Span) {
    gp <= |gs| && forall i :: 0 <= i < gp ==> !Dominates(SpanOf(gs[i]), s)
  }

  lemma InsertArranged(gs: seq<Group>, gp: nat, g: Group)
    requires Arranged(gs) && Behind(gs, gp, SpanOf(g))
    requires gp < |gs| ==> Dominates(SpanOf(gs[gp]), SpanOf(g)) && SpanOf(gs[gp]) != SpanOf(g)
    ensures Arranged(gs[..gp] + [g] + gs[gp..])
  {
    var r := gs[..gp] + [g] + gs[gp..];
    forall i, j | 0 <= i < j < |r|
      ensures !Dominates(SpanOf(r[i]), SpanOf(r[j]))
    {
      assert i < gp ==> r[i] == gs[i];
      assert j > gp ==> r[j] == gs[j - 1];
      assert i > gp ==> r[i] == gs[i - 1];
      assert i == gp < j - 1 ==> !Dominates(SpanOf(gs[gp]), SpanOf(gs[j - 1]));
    }
  }

  lemma InsertRecords(gs: seq<Group>, gp: nat, g: Group, wants: Wants)
    requires gp <= |gs| && Records(gs, wants) && SpanOf(g) !in wants
    ensures Records(gs[..gp] + [g] + gs[gp..], wants[SpanOf(g) := g.wanted])
  {
    var r := gs[..gp] + [g] + gs[gp..];
    forall s | s in wants || s == SpanOf(g)
      ensures exists i :: 0 <= i < |r| && SpanOf(r[i]) == s
    {
      if s == SpanOf(g) {
        assert r[gp] == g;
      } else {
        var i :| 0 <= i < |gs| && SpanOf(gs[i]) == s;
        assert r[if i < gp then i else i + 1] == gs[i];
      }
    }
    forall i | 0 <= i < |r|
      ensures r[i] == g || (SpanOf(r[i]) in wants && r[i].wanted == wants[SpanOf(r[i])])
    {
      assert r[i] == g || r[i] == gs[if i < gp then i else i - 1];
    }
  }

  // A group that does not occur from the cursor on does not occur at all.
  lemma NotRecorded(gs: seq<Group>, gp: nat, s: Span, wants: Wants)
    requires Arranged(gs) && Records(gs, wants) && Behind(gs, gp, s)
    requires gp < |gs| ==> Dominates(SpanOf(gs[gp]), s) && SpanOf(gs[gp]) != s
    ensures s !in wants
  {
    forall i | 0 <= i < |gs|
      ensures SpanOf(gs[i]) != s
    {
      assert i > gp ==> !Dominates(SpanOf(gs[gp]), SpanOf(gs[i]));
    }
  }

  lemma RecordedAt(gs: seq<Group>, gp: nat, wants: Wants)
    requires Records(gs, wants)
    ensures gp < |gs| ==> SpanOf(gs[gp]) in wants && gs[gp].wanted == wants[SpanOf(gs[gp])]
  {
  }

  lemma RaiseRecords(gs: seq<Group>, gp: nat, w: nat, wants: Wants)
    requires Arranged(gs) && Records(gs, wants) && gp < |gs|
    ensures
      var gs' := gs[gp := gs[gp].(wanted := w)];
      Arranged(gs') && Records(gs', wants[SpanOf(gs[gp]) := w])
  {
    var gs' := gs[gp := gs[gp].(wanted := w)];
    assert forall i :: 0 <= i < |gs| ==> SpanOf(gs'[i]) == SpanOf(gs[i]);
    forall i | 0 <= i < |gs| && i != gp
      ensures SpanOf(gs[i]) != SpanOf(gs[gp])
    {
      assert i < gp ==> !Dominates(SpanOf(gs[i]), SpanOf(gs[gp]));
      assert i > gp ==> !Dominates(SpanOf(gs[gp]), SpanOf(gs[i]));
    }
    forall s | s in wants
      ensures exists i :: 0 <= i < |gs'| && SpanOf(gs'[i]) == s
    {
      var i :| 0 <= i < |gs| && SpanOf(gs[i]) == s;
      assert SpanOf(gs'[i]) == s;
    }
  }

  /*** widths *****************************************************************/

  // The width of columns s to e with the spacings between them.
  function Wide(cs: seq<Column>, s: nat, e: nat): nat
    requires s <= e < |cs|
    decreases e - s
  {
    cs[s].width + if s < e then cs[s].spacing + Wide(cs, s + 1, e) else 0
  }

  function Sum(ns: seq<int>): int {
    if ns == [] then 0 else ns[0] + Sum(ns[1..])
  }

  // It is the sum of these widths and of the spacings behind all but the last.
  lemma {:induction false} WideIs(cs: seq<Column>, s: nat, e: nat)
    requires s <= e < |cs|
    ensures
      var widths := seq(e - s + 1, i requires 0 <= i < e - s + 1 => cs[s + i].width);
      var spacings := seq(e - s, i requires 0 <= i < e - s => cs[s + i].spacing);
      Wide(cs, s, e) == Sum(widths) + Sum(spacings)
    decreases e - s
  {
    var widths := seq(e - s + 1, i requires 0 <= i < e - s + 1 => cs[s + i].width);
    var spacings := seq(e - s, i requires 0 <= i < e - s => cs[s + i].spacing);
    if s < e {
      WideIs(cs, s + 1, e);
      assert widths[1..] == seq(e - s, i requires 0 <= i < e - s => cs[s + 1 + i].width);
      assert spacings[1..] == seq(e - s - 1, i requires 0 <= i < e - s - 1 => cs[s + 1 + i].spacing);
    } else {
      assert widths[1..] == [];
    }
  }

  lemma {:induction false} WideGrows(cs: seq<Column>, s: nat, e: nat, i: nat, d: nat)
    requires s <= e < |cs| && i < |cs|
    ensures Wide(cs[i := cs[i].(width := cs[i].width + d)], s, e) == Wide(cs, s, e) + if s <= i <= e then d else 0
    decreases e - s
  {
    if s < e {
      WideGrows(cs, s + 1, e, i, d);
    }
  }

  lemma {:induction false} WideSnoc(cs: seq<Column>, s: nat, e: nat)
    requires s <= e && e + 1 < |cs|
    ensures Wide(cs, s, e + 1) == Wide(cs, s, e) + cs[e].spacing + cs[e + 1].width
    decreases e - s
  {
    if s < e {
      WideSnoc(cs, s + 1, e);
    }
  }

  // What is still wanted for a span, and in all.
  function Missing(gs: seq<Group>, s: Span): nat {
    if gs == [] then 0
    else Missing(gs[..|gs| - 1], s) + if SpanOf(gs[|gs| - 1]) == s then gs[|gs| - 1].wanted else 0
  }

  function Total(gs: seq<Group>): nat {
    if gs == [] then 0 else Total(gs[..|gs| - 1]) + gs[|gs| - 1].wanted
  }

  lemma {:induction false} LessMissing(gs: seq<Group>, k: nat, d: nat)
    requires k < |gs| && d <= gs[k].wanted
    ensures
      var gs' := gs[k := gs[k].(wanted := gs[k].wanted - d)];
      && Total(gs') == Total(gs) - d
      && forall s :: Missing(gs', s) == Missing(gs, s) - if s == SpanOf(gs[k]) then d else 0
  {
    var n := |gs| - 1;
    var gs' := gs[k := gs[k].(wanted := gs[k].wanted - d)];
    if k < n {
      LessMissing(gs[..n], k, d);
      assert gs'[..n] == gs[..n][k := gs[k].(wanted := gs[k].wanted - d)];
    } else {
      assert gs'[..n] == gs[..n];
    }
  }

  lemma {:induction false} SumConcat(a: seq<Group>, b: seq<Group>)
    ensures Total(a + b) == Total(a) + Total(b)
    ensures forall s :: Missing(a + b, s) == Missing(a, s) + Missing(b, s)
  {
    if b == [] {
      assert a + b == a;
    } else {
      var n := |b| - 1;
      SumConcat(a, b[..n]);
      assert (a + b)[..|a| + n] == a + b[..n];
    }
  }

  lemma SumOne(g: Group)
    ensures Total([g]) == g.wanted && forall s :: Missing([g], s) == if s == SpanOf(g) then g.wanted else 0
  {
    assert [g][..0] == [];
  }

  // The sums with and without group g.
  lemma SumAround(a: seq<Group>, g: Group, b: seq<Group>)
    ensures Total(a + [g] + b) == Total(a + b) + g.wanted
    ensures forall s :: Missing(a + [g] + b, s) == Missing(a + b, s) + if s == SpanOf(g) then g.wanted else 0
  {
    SumConcat(a, [g]);
    SumConcat(a + [g], b);
    SumConcat(a, b);
    SumOne(g);
  }

  lemma InsertTotal(gs: seq<Group>, gp: nat, g: Group)
    requires gp <= |gs|
    ensures Total(gs[..gp] + [g] + gs[gp..]) == Total(gs) + g.wanted
  {
    hide Total, Missing;
    SumAround(gs[..gp], g, gs[gp..]);
    assert gs[..gp] + gs[gp..] == gs;
  }

  lemma {:induction false} RaiseTotal(gs: seq<Group>, gp: nat, w: nat)
    requires gp < |gs| && gs[gp].wanted <= w
    ensures Total(gs[gp := gs[gp].(wanted := w)]) <= Total(gs) + w
  {
    var n := |gs| - 1;
    var r := gs[gp := gs[gp].(wanted := w)];
    if gp < n {
      RaiseTotal(gs[..n], gp, w);
      assert r[..n] == gs[..n][gp := gs[gp].(wanted := w)];
    } else {
      assert r[..n] == gs[..n];
    }
  }

  lemma DropGroup(gs: seq<Group>, k: nat)
    requires k < |gs|
    ensures
      var gs' := gs[..k] + gs[k + 1..];
      && Total(gs') == Total(gs) - gs[k].wanted
      && forall s :: Missing(gs', s) == Missing(gs, s) - if s == SpanOf(gs[k]) then gs[k].wanted else 0
  {
    SumAround(gs[..k], gs[k], gs[k + 1..]);
    assert gs[..k] + [gs[k]] + gs[k + 1..] == gs;
  }

  // Every span will be as wide as wanted once the remaining groups get what
  // they still want.
  ghost predicate Promised(wants: Wants, gs: seq<Group>, cs: seq<Column>) {
    forall s :: s in wants ==> s.0 <= s.1 < |cs| && Wide(cs, s.0, s.1) + Missing(gs, s) >= wants[s]
  }

  // The spans that are not as wide as wanted, and what they miss.
  function Lacks(wants: Wants, cs: seq<Column>): Wants {
    map s | s in wants && s.0 <= s.1 < |cs| && Wide(cs, s.0, s.1) < wants[s] :: wants[s] - Wide(cs, s.0, s.1)
  }

  // Every span is as wide as wanted.
  ghost predicate WideEnough(wants: Wants, cs: seq<Column>) {
    forall s :: s in wants ==> s.0 <= s.1 < |cs| && Wide(cs, s.0, s.1) >= wants[s]
  }

  // The widths of columns i to j - 1.
  function Widths(cs: seq<Column>, i: nat, j: nat): nat
    requires i <= j <= |cs|
  {
    if i == j then 0 else Widths(cs, i, j - 1) + cs[j - 1].width
  }

  lemma {:induction false} WidthsGrow(cs: seq<Column>, i: nat, j: nat, k: nat, d: nat)
    requires i <= j <= |cs| && k < |cs|
    ensures Widths(cs[k := cs[k].(width := cs[k].width + d)], i, j) == Widths(cs, i, j) + if i <= k < j then d else 0
  {
    if i < j {
      WidthsGrow(cs, i, j - 1, k, d);
    }
  }

  // Some columns do not grow by more than all of them.
  lemma {:induction false} PartGrows(cs: seq<Column>, cs0: seq<Column>, i: nat, j: nat, n: nat)
    requires i <= j <= n <= |cs| && Grown(cs, cs0)
    ensures 0 <= Widths(cs, i, j) - Widths(cs0, i, j) <= Widths(cs, 0, n) - Widths(cs0, 0, n)
  {
    if j < n {
      PartGrows(cs, cs0, i, j, n - 1);
    } else if i < j {
      PartGrows(cs, cs0, i, j - 1, n - 1);
    } else if 0 < n {
      PartGrows(cs, cs0, n - 1, n - 1, n - 1);
    }
  }

  // Widening column i of group k by d, and noting that.
  lemma Widened(wants: Wants, gs: seq<Group>, cs: seq<Column>, k: nat, i: nat, d: nat)
    requires Promised(wants, gs, cs) && k < |gs| && gs[k].start <= i <= gs[k].end < |cs| && d <= gs[k].wanted
    ensures
      var gs', cs' := gs[k := gs[k].(wanted := gs[k].wanted - d)], cs[i := cs[i].(width := cs[i].width + d)];
      Promised(wants, gs', cs') && Total(gs') == Total(gs) - d
  {
    LessMissing(gs, k, d);
    var gs', cs' := gs[k := gs[k].(wanted := gs[k].wanted - d)], cs[i := cs[i].(width := cs[i].width + d)];
    forall s | s in wants
      ensures Wide(cs', s.0, s.1) + Missing(gs', s) >= wants[s]
    {
      WideGrows(cs, s.0, s.1, i, d);
    }
  }

  // Dismissing a group that has got all it wanted.
  lemma Dismissed(wants: Wants, gs: seq<Group>, cs: seq<Column>, k: nat)
    requires Promised(wants, gs, cs) && k < |gs| && gs[k].wanted == 0
    ensures Promised(wants, gs[..k] + gs[k + 1..], cs) && Total(gs[..k] + gs[k + 1..]) == Total(gs)
  {
    DropGroup(gs, k);
  }

  lemma AllGranted(wants: Wants, cs: seq<Column>)
    requires Promised(wants, [], cs)
    ensures WideEnough(wants, cs)
  {
  }

  // Widths and spacings only grow, and nothing else changes.
  ghost predicate Grown(cs: seq<Column>, cs0: seq<Column>) {
    |cs| == |cs0| && forall i :: 0 <= i < |cs| ==> cs[i].width >= cs0[i].width && cs[i] == cs0[i].(width := cs[i].width)
  }

  function Spans(gs: seq<Group>): set<Span> {
    set g | g in gs :: SpanOf(g)
  }

  /*** when the widening ends ***************************************************/

  // Making all columns of a group wider than a column outside of it takes
  // everything that is wanted.
  ghost predicate Ample(cs: seq<Column>, gs: seq<Group>) {
    forall k, j {:trigger gs[k], cs[j]} ::
      0 <= k < |gs| && 0 <= j < |cs| && gs[k].start <= gs[k].end < |cs| && Outside(gs[k], j) ==>
        Lift(cs, gs[k].start, gs[k].end + 1, cs[j].width + 1) >= Total(gs)
  }

  lemma {:induction false} LiftGrows(cs: seq<Column>, cs0: seq<Column>, i: nat, j: nat, h: nat)
    requires i <= j <= |cs| && Grown(cs, cs0) && forall x :: i <= x < j ==> cs[x].width >= h
    ensures Widths(cs, i, j) - Widths(cs0, i, j) >= Lift(cs0, i, j, h)
  {
    if i < j {
      LiftGrows(cs, cs0, i, j - 1, h);
    }
  }

  // Then a narrowest column always is in some remaining group.
  lemma AmpleTouches(cs0: seq<Column>, gs0: seq<Group>, cs: seq<Column>, gs: seq<Group>, min1: nat)
    requires Ample(cs0, gs0) && Spent(cs0, gs0, cs, gs) && GroupsOk(gs0, |cs|) && GroupsOk(gs, |cs|) && gs != []
    requires Smallest(cs, min1)
    ensures Touches(gs, cs, min1)
  {
    hide Total, Widths, Lift, Touches;
    var s := SpanOf(gs[0]);
    assert s in Spans(gs);
    assert s in Spans(gs0);
    var k :| 0 <= k < |gs0| && SpanOf(gs0[k]) == s;
    var g := gs0[k];
    SomeWanted(gs);
    var j :| 0 <= j < |cs| && cs[j].width == min1;
    if forall x :: g.start <= x <= g.end ==> cs[x].width != min1 {
      assert Outside(g, j);
      LiftGrows(cs, cs0, g.start, g.end + 1, cs0[j].width + 1);
      PartGrows(cs, cs0, g.start, g.end + 1, |cs|);
      assert false;
    } else {
      var x :| g.start <= x <= g.end && cs[x].width == min1;
      ShowTouches(gs, cs, 0, x, min1);
    }
  }

  lemma SomeWanted(gs: seq<Group>)
    requires gs != [] && gs[|gs| - 1].wanted > 0
    ensures Total(gs) > 0
  {
  }

  /*** the algorithm **********************************************************/

  lemma BehindNone(gs: seq<Group>, cells: seq<Cell>)
    ensures cells != [] ==> Behind(gs, 0, CellSpan(cells[0]))
  {
  }

  // The cursor need not be reset for a cell farther to the right.
  lemma StillBehind(gs: seq<Group>, gp: nat, c: Cell, d: Cell)
    requires Behind(gs, gp, CellSpan(c)) && c.col + c.hspans < d.col
    ensures Behind(gs, gp, CellSpan(d))
  {
  }

  // No column is wider than w less all that the groups want.
  ghost predicate Within(cs: seq<Column>, gs: seq<Group>, w: nat) {
    Total(gs) <= w && forall i :: 0 <= i < |cs| ==> cs[i].width + Total(gs) <= w
  }

  lemma WithinMore(cs: seq<Column>, gs: seq<Group>, w: nat)
    requires Within(cs, gs, w)
    ensures Within(cs, gs, w + 1)
  {
    hide Total;
  }

  lemma WithinCell(cs: seq<Column>, gs: seq<Group>, gs': seq<Group>, maxcol: int, c: Cell, w: nat)
    requires Within(cs, gs, w) && c.col + c.hspans < |cs|
    requires if c.hspans > 0 && !c.ignore then Total(gs') <= Total(gs) + c.auto else gs' == gs
    ensures Within(Accounted(cs, maxcol, c), gs', w + c.width + c.auto)
  {
    hide Total;
    var cs' := Accounted(cs, maxcol, c);
    assert forall i :: 0 <= i < |cs| ==> cs'[i].width == if i == c.col then Asked(cs[i], c).width else cs[i].width;
  }

  class Calc {
    const cols: array<Column>
    var groups: seq<Group>
    var maxcol: int
    ghost var wants: Wants

    constructor (ncols: nat)
      ensures cols.Length == ncols && fresh(cols) && groups == [] && maxcol == -1 && wants == map[]
      ensures Listed() && forall i :: 0 <= i < ncols ==> cols[i] == Column(0, 0, false, false)
    {
      cols := new Column[ncols](_ => Column(0, 0, false, false));
      groups, maxcol, wants := [], -1, map[];
    }

    // The list of groups is in order and records all spans.
    ghost predicate Listed()
      reads this
    {
      && Arranged(groups) && Records(groups, wants) && -1 <= maxcol < cols.Length
      && forall s :: s in wants ==> s.0 < s.1 <= maxcol
    }

    // Note the span of a cell, starting the search at position gp.
    method NoteSpan(c: Cell, gp: nat) returns (gp': nat)
      requires Listed() && c.hspans > 0 && !c.ignore && c.col + c.hspans <= maxcol
      requires Behind(groups, gp, CellSpan(c))
      modifies this`groups, this`wants
      ensures Listed() && wants == Noted(old(wants), c)
      ensures Behind(groups, gp', CellSpan(c)) && Total(groups) <= old(Total(groups)) + c.auto
    {
      hide Arranged, Records, Total;
      gp' := gp;
      while gp' < |groups| && (groups[gp'].start < c.col || groups[gp'].end < c.col + c.hspans)
        invariant Behind(groups, gp', CellSpan(c))
      {
        gp' := gp' + 1;
      }
      var g := Group(c.col, c.col + c.hspans, c.auto);
      RecordedAt(groups, gp', wants);
      if gp' == |groups| || groups[gp'].start > c.col || groups[gp'].end > c.col + c.hspans {
        NotRecorded(groups, gp', SpanOf(g), wants);
        InsertArranged(groups, gp', g);
        InsertRecords(groups, gp', g, wants);
        InsertTotal(groups, gp', g);
        groups := groups[..gp'] + [g] + groups[gp'..];
        wants := wants[SpanOf(g) := g.wanted];
      } else if groups[gp'].wanted < c.auto {
        RaiseRecords(groups, gp', c.auto, wants);
        RaiseTotal(groups, gp', c.auto);
        wants := wants[SpanOf(g) := c.auto];
        groups := groups[gp' := groups[gp'].(wanted := c.auto)];
      }
    }

    // Account for the cells of a row; w limits what the cells before asked for.
    method AddRow(cells: seq<Cell>, ghost w: nat)
      requires Listed() && RowOk(cells, cols.Length) && Within(cols[..], groups, w)
      modifies this`groups, this`wants, this`maxcol, cols
      ensures Listed() && wants == NotedAll(old(wants), cells)
      ensures (cols[..], maxcol) == AccountedAll(old(cols[..]), old(maxcol), cells)
      ensures Within(cols[..], groups, w + Demand(cells))
    {
      hide Accounted, Noted, Listed, Within, Behind;
      WithinMore(cols[..], groups, w);
      var gp: nat := 0;
      BehindNone(groups, cells);
      for k := 0 to |cells|
        invariant Listed() && wants == NotedAll(old(wants), cells[..k])
        invariant (cols[..], maxcol) == AccountedAll(old(cols[..]), old(maxcol), cells[..k])
        invariant Within(cols[..], groups, w + Demand(cells[..k]))
        invariant k < |cells| ==> Behind(groups, gp, CellSpan(cells[k]))
      {
        assert cells[..k + 1][..k] == cells[..k];
        gp := AddNext(cells[k], gp, w + Demand(cells[..k]));
        if k + 1 < |cells| {
          StillBehind(groups, gp, cells[k], cells[k + 1]);
        }
      }
      assert cells[..|cells|] == cells;
    }

    // Account for the next cell of a row.
    method AddNext(c: Cell, gp: nat, ghost w: nat) returns (gp': nat)
      requires Listed() && c.col + c.hspans < cols.Length && Behind(groups, gp, CellSpan(c))
               && Within(cols[..], groups, w)
      modifies this`groups, this`wants, this`maxcol, cols
      ensures Listed() && wants == Noted(old(wants), c) && Behind(groups, gp', CellSpan(c))
      ensures cols[..] == Accounted(old(cols[..]), old(maxcol), c) && maxcol == MaxcolAfter(old(maxcol), c)
      ensures Within(cols[..], groups, w + c.width + c.auto)
    {
      hide Accounted, Arranged, Records, Within, Behind;
      gp' := gp;
      ghost var cs, gs, mc := cols[..], groups, maxcol;
      AddCell(c);
      if c.hspans > 0 && !c.ignore {
        gp' := NoteSpan(c, gp);
      }
      WithinCell(cs, gs, groups, mc, c, w);
    }

    // Account for the width, the spacing, and the flags of one cell.
    method Ask(k: Column, c: Cell) returns (col: Column)
      ensures col == Asked(k, c)
    {
      col := k.(equal := k.equal || c.equal, wmax := k.wmax || c.wmax);
      if c.ignore {
        return;
      }
      if col.width < c.width {
        col := col.(width := c.width);
      }
      if c.spacing != SIZE_MAX && (col.spacing == SIZE_MAX || col.spacing < c.spacing) {
        col := col.(spacing := c.spacing);
      }
      if c.hspans == 0 && col.width < c.auto {
        col := col.(width := c.auto);
      }
    }

    // Account for one cell, and for the columns it spans.
    method AddCell(c: Cell)
      requires c.col + c.hspans < cols.Length && -1 <= maxcol < cols.Length
      modifies this`maxcol, cols
      ensures maxcol == MaxcolAfter(old(maxcol), c) && cols[..] == Accounted(old(cols[..]), old(maxcol), c)
    {
      while maxcol < c.col + c.hspans
        invariant old(maxcol) <= maxcol < cols.Length
        invariant maxcol == old(maxcol) || maxcol <= c.col + c.hspans
        invariant forall i :: 0 <= i < cols.Length ==>
                    cols[i] == if old(maxcol) < i <= maxcol then old(cols[i]).(spacing := SIZE_MAX) else old(cols[i])
      {
        maxcol := maxcol + 1;
        cols[maxcol] := cols[maxcol].(spacing := SIZE_MAX);
      }
      var col := Ask(cols[c.col], c);
      cols[c.col] := col;
    }

    // Set default widths and spacings.
    method SetDefaults()
      requires Listed()
      modifies this`maxcol, cols
      ensures Listed() && maxcol == cols.Length - 1
      ensures forall i :: 0 <= i < cols.Length ==> cols[i] == Defaults(old(cols[i]), i == maxcol)
    {
      if maxcol < cols.Length - 1 {
        maxcol := cols.Length - 1;
      }
      for icol := 0 to maxcol + 1
        invariant maxcol == cols.Length - 1
        invariant forall i :: 0 <= i < cols.Length ==>
                    cols[i] == if i < icol then Defaults(old(cols[i]), i == maxcol) else old(cols[i])
      {
        if cols[icol].width < 1 {
          cols[icol] := cols[icol].(width := 1);
        }
        if cols[icol].spacing == SIZE_MAX || icol == maxcol {
          cols[icol] := cols[icol].(spacing := 3);
        }
      }
    }

    // What a group still misses; done if it is wide enough.
    method Lacking(g: Group) returns (done: bool, left: nat)
      requires g.start <= g.end < cols.Length
      ensures done <==> g.wanted <= Wide(cols[..], g.start, g.end)
      ensures !done ==> left == g.wanted - Wide(cols[..], g.start, g.end)
    {
      ghost var cs := cols[..];
      done, left := false, g.wanted;
      for icol := g.start to g.end + 1
        invariant left + Wide(cs, g.start, g.end) == g.wanted + if icol <= g.end then Wide(cs, icol, g.end) else 0
        invariant icol > g.start ==> left > 0
      {
        var width := cols[icol].width;
        if icol < g.end {
          width := width + cols[icol].spacing;
        }
        if left <= width {
          return true, left;
        }
        left := left - width;
      }
    }

    // From now on, a group wants what its columns lack; one that lacks nothing
    // goes away.
    method Dismiss()
      requires Listed() && maxcol == cols.Length - 1
      modifies this`groups
      ensures Promised(wants, groups, cols[..]) && GroupsOk(groups, cols.Length) && Total(groups) <= old(Total(groups))
      ensures Arranged(groups) && Records(groups, Lacks(wants, cols[..]))
    {
      hide Promised, Arranged, Wide, Total, Records;
      ghost var cs := cols[..];
      StartPromised(wants, groups, cs);
      StartSorted(wants, groups, cs);
      var gp: nat := 0;
      while gp < |groups|
        invariant gp <= |groups| && Promised(wants, groups, cs) && Arranged(groups)
                  && Total(groups) <= old(Total(groups))
        invariant Sorted(wants, groups, gp, cs)
        decreases |groups| - gp
      {
        var done, left := Lacking(groups[gp]);
        if done {
          SortedDrop(wants, groups, gp, cs);
          Removed(wants, groups, cs, gp);
          groups := groups[..gp] + groups[gp + 1..];
        } else {
          SortedKeep(wants, groups, gp, cs);
          Reduced(wants, groups, cs, gp, left);
          groups := groups[gp := groups[gp].(wanted := left)];
          gp := gp + 1;
        }
      }
      AllSorted(wants, groups, cs);
    }

    // Find the smallest and the second smallest width.
    method TwoSmallest() returns (min1: nat, min2: nat)
      requires maxcol == cols.Length - 1 && cols.Length > 0
      requires forall i :: 0 <= i < cols.Length ==> cols[i].width < SIZE_MAX
      ensures TwoLeast(cols[..], min1, min2)
    {
      min1, min2 := SIZE_MAX, SIZE_MAX;
      for icol := 0 to maxcol + 1
        invariant icol > 0 ==> min1 < min2
        invariant min1 <= min2 <= SIZE_MAX && (icol == 0 ==> min1 == SIZE_MAX)
        invariant forall i :: 0 <= i < icol ==>
                    min1 <= cols[i].width && (cols[i].width == min1 || cols[i].width >= min2)
        invariant icol > 0 ==> exists i :: 0 <= i < icol && cols[i].width == min1
        invariant min2 == SIZE_MAX || exists i :: 0 <= i < icol && cols[i].width == min2
      {
        var width := cols[icol].width;
        if min1 > width {
          min2 := min1;
          min1 := width;
        } else if min1 < width && min2 > width {
          min2 := width;
        }
      }
      assert forall i :: 0 <= i < cols.Length ==> cols[..][i] == cols[i];
    }

    // How many columns of this width are in a group?
    method CountIn(g: Group, min1: nat) returns (necol: nat)
      requires g.start <= g.end < cols.Length
      ensures necol == Narrow(cols[..], g.start, g.end + 1, min1)
    {
      necol := 0;
      for icol := g.start to g.end + 1
        invariant necol == Narrow(cols[..], g.start, icol, min1)
      {
        if cols[icol].width == min1 {
          necol := necol + 1;
        }
      }
    }

    // The width that gives a group all it wants, or min2 if that is less.
    method WidthFor(g: Group, min1: nat, min2: nat) returns (width: nat)
      requires g.start <= g.end < cols.Length && g.wanted > 0 && min1 < min2
      ensures width == Enough(g, cols[..], min1, min2) && min1 < width <= min2
    {
      hide Narrow;
      var necol := CountIn(g, min1);
      if necol == 0 {
        return min2;
      }
      width := min1 + (g.wanted - 1) / necol + 1;
      if width > min2 {
        width := min2;
      }
    }

    // Find the width to give to the narrowest columns: the second smallest
    // width, or the smallest one that gives some group all it wants.
    method NextWidth(min1: nat, min2: nat) returns (wanted: nat)
      requires GroupsOk(groups, cols.Length) && min1 < min2
      ensures min1 < wanted <= min2
      ensures forall k :: 0 <= k < |groups| ==> wanted <= Enough(groups[k], cols[..], min1, min2)
      ensures wanted == min2 || exists k :: 0 <= k < |groups| && wanted == Enough(groups[k], cols[..], min1, min2)
    {
      hide Enough;
      wanted := min2;
      for k := 0 to |groups|
        invariant min1 < wanted <= min2
        invariant forall j :: 0 <= j < k ==> wanted <= Enough(groups[j], cols[..], min1, min2)
        invariant wanted == min2 || exists j :: 0 <= j < k && wanted == Enough(groups[j], cols[..], min1, min2)
      {
        var width := WidthFor(groups[k], min1, min2);
        if wanted > width {
          wanted := width;
        }
      }
    }

    // Widen the narrowest columns of group k; done if it has got all it wants.
    method WidenGroup(k: nat, min1: nat, wanted: nat) returns (done: bool)
      requires GroupsOk(groups, cols.Length) && k < |groups| && min1 < wanted
      requires Promised(wants, groups, cols[..])
      modifies this`groups, cols
      ensures Promised(wants, groups, cols[..]) && Progress(old(cols[..]), old(groups), cols[..], groups, k, min1)
      ensures |groups| == old(|groups|) && (done <==> groups[k].wanted == 0)
      ensures
        var g := old(groups)[k];
        (cols[..], groups[k].wanted) == GroupOn(old(cols[..]), g.wanted, g.start, g.end + 1, min1, wanted)
      ensures if old(NarrowIn(groups[k], cols[..], min1)) > 0 then Total(groups) < old(Total(groups))
              else !done && groups == old(groups) && cols[..] == old(cols[..])
    {
      hide Promised, Wide, Total, Missing, Progress, Widths, Grown;
      ghost var gs0, cs0 := groups, cols[..];
      var start, end := groups[k].start, groups[k].end;
      done := false;
      ProgressStart(cs0, gs0, k, min1);
      for icol := start to end + 1
        invariant |groups| == |gs0| && SpanOf(groups[k]) == (start, end) && groups[k].wanted > 0
        invariant Promised(wants, groups, cols[..]) && Progress(cs0, gs0, cols[..], groups, k, min1)
        invariant forall i :: icol <= i < cols.Length ==> cols[i] == cs0[i]
        invariant forall i :: 0 <= i < icol ==>
                    cols[i] == if i >= start && cs0[i].width == min1 then cs0[i].(width := wanted) else cs0[i]
        invariant if Narrow(cs0, start, icol, min1) > 0 then Total(groups) < Total(gs0)
                  else groups == gs0 && cols[..] == cs0
        invariant GroupOn(cols[..], groups[k].wanted, icol, end + 1, min1, wanted)
                  == GroupOn(cs0, gs0[k].wanted, start, end + 1, min1, wanted)
      {
        if cols[icol].width != min1 {
          continue;
        }
        ghost var cs, gs := cols[..], groups;
        done := groups[k].wanted <= wanted - min1;
        var d: nat := if done then groups[k].wanted else wanted - min1;
        Widened(wants, gs, cs, k, icol, d);
        ProgressStep(cs0, gs0, cs, gs, k, min1, icol, d);
        cols[icol] := cols[icol].(width := if done then cols[icol].width + groups[k].wanted else wanted);
        groups := groups[k := groups[k].(wanted := groups[k].wanted - d)];
        assert cols[..] == cs[icol := cs[icol].(width := cs[icol].width + d)];
        if done {
          NarrowMore(cs0, start, icol, end + 1, min1);
          return;
        }
      }
    }

    // One pass: find the narrowest columns, and widen those of them that are
    // in groups.  The pass makes progress exactly if there are any.
    method Pass() returns (ghost min1: nat, ghost min2: nat, ghost level: nat)
      requires groups != [] && GroupsOk(groups, cols.Length) && maxcol == cols.Length - 1
      requires Promised(wants, groups, cols[..]) && Fits(cols[..], groups)
      modifies this`groups, cols
      ensures GroupsOk(groups, cols.Length) && Promised(wants, groups, cols[..]) && Fits(cols[..], groups)
      ensures Spent(old(cols[..]), old(groups), cols[..], groups) && Smallest(old(cols[..]), min1)
      ensures if old(Touches(groups, cols[..], min1)) then Total(groups) < old(Total(groups))
              else groups == old(groups) && cols[..] == old(cols[..])
      ensures TwoLeast(old(cols[..]), min1, min2) && LevelFor(old(cols[..]), old(groups), min1, min2, level)
      ensures (cols[..], groups) == PassOn(old(cols[..]), old(groups), min1, level)
    {
      hide Promised, Wide, Missing, Progress, Total, Spent, Touches, GroupsOk, Fits, GroupOn, PassOn;
      hide Enough, Smallest;
      ghost var gs0, cs0 := groups, cols[..];
      SpentNone(cs0, gs0);
      FitsColumns(cs0, gs0);
      var small, second := TwoSmallest();
      min1, min2 := small, second;
      var wanted := NextWidth(small, second);
      level := wanted;
      GroupAt(gs0, |cs0|);
      RestAll(cs0, gs0, small, wanted);
      var gp: nat := 0;
      ghost var changed := false;
      while gp < |groups|
        invariant gp <= |groups| && GroupsOk(groups, cols.Length) && Promised(wants, groups, cols[..])
        invariant Spent(cs0, gs0, cols[..], groups)
        invariant changed ==> Total(groups) < Total(gs0) && Touches(gs0, cs0, min1)
        invariant !changed ==>
                    && groups == gs0 && cols[..] == cs0
                    && forall k :: 0 <= k < gp ==> NarrowIn(gs0[k], cs0, min1) == 0
        invariant RestOf(cs0, gs0, cols[..], groups, gp, small, wanted)
        decreases |groups| - gp
      {
        ghost var gs, cs := groups, cols[..];
        var done := WidenGroup(gp, small, wanted);
        if NarrowIn(gs[gp], cs, min1) > 0 {
          if !changed {
            TouchesOne(gs0, cs0, gp, min1);
          }
          changed := true;
        }
        SpentMore(cs0, gs0, cs, gs, cols[..], groups, gp, min1);
        ghost var gs1 := groups;
        AfterGroup(cs, gs, cols[..], gs1, gp, min1, done);
        RestNext(cs0, gs0, cs, gs, cols[..], gs1, gp, small, wanted);
        if done {
          Dismissed(wants, gs1, cols[..], gp);
          groups := groups[..gp] + groups[gp + 1..];
          SpentSame(cs0, gs0, cols[..], gs1, groups);
        } else {
          gp := gp + 1;
        }
      }
      if !changed {
        TouchesNone(gs0, cs0, min1);
      }
      RestDone(cs0, gs0, cols[..], groups, small, wanted);
      StillFits(cs0, gs0, cols[..], groups);
      SpentGrown(cs0, gs0, cols[..], groups);
    }

    // Is any column of width min1 in a remaining group?
    method AnyNarrow(min1: nat) returns (r: bool)
      requires GroupsOk(groups, cols.Length)
      ensures r <==> Touches(groups, cols[..], min1)
    {
      for k := 0 to |groups|
        invariant forall j :: 0 <= j < k ==> NarrowIn(groups[j], cols[..], min1) == 0
      {
        var necol := CountIn(groups[k], min1);
        if necol > 0 {
          TouchesOne(groups, cols[..], k, min1);
          return true;
        }
      }
      TouchesNone(groups, cols[..], min1);
      r := false;
    }

    // Widen columns until all spans are as wide as they want, unless that
    // never happens: once no remaining group contains a narrowest column,
    // stuck, a pass changes nothing, and the source repeats it forever.
    method Widen() returns (stuck: bool)
      requires GroupsOk(groups, cols.Length) && maxcol == cols.Length - 1
      requires Promised(wants, groups, cols[..]) && Fits(cols[..], groups)
      modifies this`groups, cols
      ensures Spent(old(cols[..]), old(groups), cols[..], groups)
      ensures !stuck ==> groups == [] && WideEnough(wants, cols[..])
      ensures stuck ==> groups != [] && GroupsOk(groups, cols.Length)
      ensures stuck ==> forall min1 :: Smallest(cols[..], min1) ==> !Touches(groups, cols[..], min1)
      ensures Ample(old(cols[..]), old(groups)) ==> !stuck
      ensures old(Separate(groups)) ==> (stuck <==> !Levels(old(cols[..]), old(groups)))
    {
      hide Promised, Wide, Missing, Total, Touches, Fits, Widths, Ample, Spans, Levels, LevelFor, PassOn;
      hide Separate;
      ghost var cs0, gs0 := cols[..], groups;
      SpentNone(cs0, gs0);
      OutcomeStart(cs0, gs0);
      stuck := false;
      while groups != [] && !stuck
        invariant GroupsOk(groups, cols.Length) && Promised(wants, groups, cols[..]) && Fits(cols[..], groups)
        invariant Spent(cs0, gs0, cols[..], groups) && maxcol == cols.Length - 1
        invariant stuck ==> groups != [] && !Ample(cs0, gs0)
        invariant Separate(gs0) ==> Separate(groups) && SameOutcome(cs0, gs0, cols[..], groups)
        invariant Separate(gs0) && stuck ==> !Levels(cs0, gs0)
        invariant stuck ==> forall min1 :: Smallest(cols[..], min1) ==> !Touches(groups, cols[..], min1)
        decreases Total(groups), !stuck
      {
        FitsColumns(cols[..], groups);
        var small, second := TwoSmallest();
        OneSmallest(cols[..], small);
        var narrow := AnyNarrow(small);
        if narrow {
          ghost var cs, gs := cols[..], groups;
          ghost var min1, min2, level := Pass();
          SpentOn(cs0, gs0, cs, gs, cols[..], groups);
          assert min1 == small;
          LevelBetween(cs, gs, min1, min2, level);
          if Separate(gs) {
            OutcomeKept(cs, gs, cols[..], groups, min1, min2, level);
          }
        } else {
          if Ample(cs0, gs0) {
            AmpleTouches(cs0, gs0, cols[..], groups, small);
          }
          NoLevels(cols[..], groups, small);
          stuck := true;
        }
      }
      if !stuck {
        AllGranted(wants, cols[..]);
      }
    }

    // Calculate the widths that all cells and all spans of the data rows need,
    // unless the source repeats a pass forever.  Before the first pass, the
    // columns are cs, and the groups gs want what their spans lack.
    method Fit(rows: seq<seq<Cell>>) returns (stuck: bool, ghost cs: seq<Column>, ghost gs: seq<Group>)
      requires groups == [] && wants == map[] && maxcol == -1 && Listed()
      requires forall i :: 0 <= i < cols.Length ==> cols[i] == Column(0, 0, false, false)
      requires forall i :: 0 <= i < |rows| ==> RowOk(rows[i], cols.Length)
      requires DemandOf(rows) + 1 < SIZE_MAX
      modifies this`groups, this`wants, this`maxcol, cols
      ensures wants == NotedRows(rows) && cs == StartColumns(cols.Length, rows)
      ensures GroupsOk(gs, |cs|) && Arranged(gs) && Records(gs, Lacks(wants, cs))
      ensures Spent(cs, gs, cols[..], groups)
      ensures !stuck ==> WideEnough(wants, cols[..])
      ensures stuck ==> groups != [] && GroupsOk(groups, cols.Length)
      ensures stuck ==> forall min1 :: Smallest(cols[..], min1) ==> !Touches(groups, cols[..], min1)
      ensures Ample(cs, gs) ==> !stuck
      ensures Separate(gs) ==> (stuck <==> !Levels(cs, gs))
    {
      hide Arranged, Records, Within, Total, Touches, Smallest, Promised, Ample, Levels, Spent, Lacks, Accounted;
      ghost var cs0 := cols[..];
      assert cs0 == NoColumns(cols.Length);
      NothingYet(cs0);
      for i := 0 to |rows|
        invariant Listed() && wants == NotedRows(rows[..i]) && Within(cols[..], groups, DemandOf(rows[..i]))
        invariant cols[..] == AccountedRows(cs0, rows[..i]).0 && maxcol == AccountedRows(cs0, rows[..i]).1
      {
        assert rows[..i + 1][..i] == rows[..i];
        AddRow(rows[i], DemandOf(rows[..i]));
      }
      assert rows[..|rows|] == rows;
      ghost var cs1, gs1 := cols[..], groups;
      SetDefaults();
      cs := cols[..];
      assert cs == StartColumns(cols.Length, rows);
      Dismiss();
      gs := groups;
      FitsWithin(cs1, gs1, cols[..], groups, DemandOf(rows));
      stuck := Widen();
    }
  }

  function NoColumns(n: nat): seq<Column> {
    seq(n, _ => Column(0, 0, false, false))
  }

  function AccountedRows(cs: seq<Column>, rows: seq<seq<Cell>>): (r: (seq<Column>, int))
    requires forall i :: 0 <= i < |rows| ==> RowOk(rows[i], |cs|)
    ensures |r.0| == |cs|
  {
    if rows == [] then (cs, -1)
    else
      var r := AccountedRows(cs, rows[..|rows| - 1]);
      assert RowOk(rows[|rows| - 1], |cs|);
      AccountedAll(r.0, r.1, rows[|rows| - 1])
  }

  // The columns of a table before any of them is widened for a span.
  function StartColumns(n: nat, rows: seq<seq<Cell>>): (cs: seq<Column>)
    requires forall i :: 0 <= i < |rows| ==> RowOk(rows[i], n)
    ensures |cs| == n
  {
    var r := AccountedRows(NoColumns(n), rows).0;
    seq(n, i requires 0 <= i < n => Defaults(r[i], i == n - 1))
  }

  // All cells of a table.
  function AllCells(rows: seq<seq<Cell>>): seq<Cell> {
    if rows == [] then [] else AllCells(rows[..|rows| - 1]) + rows[|rows| - 1]
  }

  lemma {:induction false} CellIn(rows: seq<seq<Cell>>, c: Cell)
    ensures c in AllCells(rows) <==> exists r :: 0 <= r < |rows| && c in rows[r]
  {
    if rows != [] {
      CellIn(rows[..|rows| - 1], c);
    }
  }

  lemma {:induction false} AccountedOn(cs: seq<Column>, maxcol: int, a: seq<Cell>, b: seq<Cell>)
    requires forall c :: c in a || c in b ==> c.col + c.hspans < |cs|
    ensures var r := AccountedAll(cs, maxcol, a); AccountedAll(cs, maxcol, a + b) == AccountedAll(r.0, r.1, b)
  {
    hide Accounted;
    if b == [] {
      assert a + b == a;
    } else {
      var n := |b| - 1;
      AccountedOn(cs, maxcol, a, b[..n]);
      assert (a + b)[..|a| + n] == a + b[..n];
    }
  }

  lemma {:induction false} RowsFlat(cs: seq<Column>, rows: seq<seq<Cell>>)
    requires forall i :: 0 <= i < |rows| ==> RowOk(rows[i], |cs|)
    ensures forall c :: c in AllCells(rows) ==> c.col + c.hspans < |cs|
    ensures AccountedRows(cs, rows) == AccountedAll(cs, -1, AllCells(rows))
  {
    hide Accounted;
    if rows != [] {
      var n := |rows| - 1;
      RowsFlat(cs, rows[..n]);
      assert RowOk(rows[n], |cs|);
      AccountedOn(cs, -1, AllCells(rows[..n]), rows[n]);
    }
  }

  // Is column i in use, that is, does some cell cover it or one behind it?
  predicate InUse(cells: seq<Cell>, i: nat) {
    exists c :: c in cells && i <= c.col + c.hspans
  }

  // What the first part of the calculation makes of a column: the width of
  // its most demanding cell, but at least 1; the largest spacing asked for,
  // or 3 without any and behind the last column; and each flag that any of
  // its cells has.  Behind an unused column that is not the last one, there
  // is no spacing.
  lemma StartColumnIs(n: nat, rows: seq<seq<Cell>>, i: nat)
    requires i < n && forall r :: 0 <= r < |rows| ==> RowOk(rows[r], n)
    ensures
      var cells, k := AllCells(rows), StartColumns(n, rows)[i];
      && (k.width >= 1 && forall c, v :: c in cells && AsksFor(c, i, v) ==> k.width >= v)
      && (k.width == 1 || exists c :: c in cells && AsksFor(c, i, k.width))
      && (k.equal <==> exists c :: c in cells && c.col == i && c.equal)
      && (k.wmax <==> exists c :: c in cells && c.col == i && c.wmax)
      && (i == n - 1 ==> k.spacing == 3)
      && (i < n - 1 && !InUse(cells, i) ==> k.spacing == 0)
      && (i < n - 1 && InUse(cells, i) ==>
            && (forall c, v :: c in cells && SpacingFor(c, i, v) ==> k.spacing >= v)
            && ((exists c :: c in cells && SpacingFor(c, i, k.spacing)) ||
                (k.spacing == 3 && forall c, v :: c in cells ==> !SpacingFor(c, i, v))))
  {
    hide AccountedAll, AccountedRows;
    var none, cells := NoColumns(n), AllCells(rows);
    RowsFlat(none, rows);
    WidestCell(none, -1, cells, i);
    LargestSpacing(none, -1, cells, i);
    LastUsed(none, -1, cells);
    AnyFlag(none, -1, cells, i);
  }

  function NotedRows(rows: seq<seq<Cell>>): Wants {
    if rows == [] then map[] else NotedAll(NotedRows(rows[..|rows| - 1]), rows[|rows| - 1])
  }

  lemma NothingYet(cs: seq<Column>)
    requires forall i :: 0 <= i < |cs| ==> cs[i].width == 0
    ensures Within(cs, [], 0)
  {
  }

  // Does the cell want width w for span s?
  predicate WantsFor(c: Cell, s: Span, w: nat) {
    !c.ignore && c.hspans > 0 && CellSpan(c) == s && c.auto == w
  }

  // The width recorded for a span is the largest one that any cell wants.
  lemma {:induction false} LargestWanted(wants: Wants, cells: seq<Cell>, s: Span)
    ensures s in NotedAll(wants, cells) <==>
              s in wants || exists k :: 0 <= k < |cells| && WantsFor(cells[k], s, cells[k].auto)
    ensures s in NotedAll(wants, cells) ==>
              var w := NotedAll(wants, cells)[s];
              && (s in wants ==> w >= wants[s])
              && (forall k, v :: 0 <= k < |cells| && WantsFor(cells[k], s, v) ==> w >= v)
              && ((s in wants && w == wants[s]) || exists k :: 0 <= k < |cells| && WantsFor(cells[k], s, w))
  {
    if cells != [] {
      var n := |cells| - 1;
      LargestWanted(wants, cells[..n], s);
      assert forall k :: 0 <= k < n ==> cells[..n][k] == cells[k];
      if s in NotedAll(wants, cells) && s in NotedAll(wants, cells[..n])
          && NotedAll(wants, cells)[s] == NotedAll(wants, cells[..n])[s] {
        var w := NotedAll(wants, cells)[s];
        if !(s in wants && w == wants[s]) {
          var k :| 0 <= k < n && WantsFor(cells[..n][k], s, w);
          assert WantsFor(cells[k], s, w);
        }
      } else if s in NotedAll(wants, cells) {
        assert WantsFor(cells[n], s, NotedAll(wants, cells)[s]);
      }
      if s in NotedAll(wants, cells[..n]) && s !in wants {
        var k :| 0 <= k < n && WantsFor(cells[..n][k], s, cells[..n][k].auto);
        assert WantsFor(cells[k], s, cells[k].auto);
      }
      forall k, v | 0 <= k < |cells| && WantsFor(cells[k], s, v)
        ensures s in NotedAll(wants, cells) && NotedAll(wants, cells)[s] >= v
      {
        if k < n {
          assert WantsFor(cells[..n][k], s, v);
        }
      }
    }
  }

  // For example, a table with cells of widths 1, 5, and 5 in its first row,
  // and with a cell in the next row that spans the last two columns and is
  // wider than they are.
  function Plain(col: nat, hspans: nat, auto: nat): Cell {
    Cell(col, hspans, false, false, false, 0, SIZE_MAX, auto)
  }

  function ExampleRows(wanted: nat): seq<seq<Cell>> {
    [[Plain(0, 0, 1), Plain(1, 0, 5), Plain(2, 0, 5)], [Plain(1, 1, 13 + wanted)]]
  }

  lemma ExampleColumns(wanted: nat)
    ensures forall i :: 0 <= i < |ExampleRows(wanted)| ==> RowOk(ExampleRows(wanted)[i], 3)
    ensures StartColumns(3, ExampleRows(wanted)) == [Column(1, 3, false, false), Column(5, 3, false, false),
            Column(5, 3, false, false)]
    ensures NotedRows(ExampleRows(wanted)) == map[(1, 2) := 13 + wanted] && DemandOf(ExampleRows(wanted)) == 26 + wanted
  {
    var rows := ExampleRows(wanted);
    var a: seq<Cell>, b: seq<Cell> := rows[0], rows[1];
    assert rows[..1] == [a] && rows[..1][..0] == rows[..0] == [];
    assert a[..2] == [a[0], a[1]] && [a[0], a[1]][..1] == [a[0]] && [a[0]][..0] == [];
    var c0 := NoColumns(3);
    var c1, c2 := Accounted(c0, -1, a[0]), Accounted(Accounted(c0, -1, a[0]), 0, a[1]);
    var c3 := Accounted(c2, 1, a[2]);
    assert AccountedAll(c0, -1, [a[0]]) == (c1, 0);
    assert AccountedAll(c0, -1, a[..2]) == (c2, 1);
    assert AccountedAll(c0, -1, a) == (c3, 2);
    assert AccountedRows(c0, rows[..1]) == (c3, 2);
    assert AccountedAll(c3, 2, b) == (Accounted(c3, 2, b[0]), 2);
    var n := SIZE_MAX;
    assert c3 == [Column(1, n, false, false), Column(5, n, false, false), Column(5, n, false, false)];
    var none: Wants := map[];
    assert NotedAll(none, []) == none && NotedAll(none, a[..2][..1]) == none;
    assert NotedAll(none, a[..2]) == none && NotedAll(none, a) == none;
    assert NotedRows(rows[..1]) == none && b[..0] == a[..0];
    assert NotedAll(none, b) == map[(1, 2) := 13 + wanted];
    assert a[..2][..1][..0] == b[..0] == [];
    assert Demand(b) == 14 + wanted && Demand(a[..2][..1]) == 2;
    assert Demand(a[..2]) == 7;
    assert Demand(a) == 12;
    assert DemandOf(rows[..1]) == 12;
  }

  lemma FirstTwoDiffer(gs: seq<Group>)
    requires Arranged(gs)
    ensures |gs| > 1 ==> SpanOf(gs[0]) != SpanOf(gs[1])
  {
    assert |gs| > 1 ==> !Dominates(SpanOf(gs[0]), SpanOf(gs[1]));
  }

  lemma OnlyGroup(gs: seq<Group>, s: Span, w: nat)
    requires Arranged(gs) && Records(gs, map[s := w])
    ensures gs == [Group(s.0, s.1, w)]
  {
    assert s in map[s := w];
    var i :| 0 <= i < |gs| && SpanOf(gs[i]) == s;
    FirstTwoDiffer(gs);
  }

  // The source never finishes this table.
  method StuckExample(wanted: nat) returns (stuck: bool)
    requires 0 < wanted < SIZE_MAX - 27
    ensures stuck
  {
    hide StartColumns, NotedRows, Records, Arranged, Ample, Spent, Promised, Levels;
    ExampleColumns(wanted);
    var table := new Calc(3);
    ghost var cs, gs;
    stuck, cs, gs := table.Fit(ExampleRows(wanted));
    assert Wide(cs, 2, 2) == 5 && Wide(cs, 1, 2) == 13;
    assert Lacks(map[(1, 2) := 13 + wanted], cs) == map[(1, 2) := wanted];
    OnlyGroup(gs, (1, 2), wanted);
    assert !Touches(gs, cs, 1) && Smallest(cs, 1) by {
      assert cs[0].width == 1;
    }
    NoLevels(cs, gs, 1);
  }

  lemma FitsWithin(cs: seq<Column>, gs: seq<Group>, cs': seq<Column>, gs': seq<Group>, w: nat)
    requires Within(cs, gs, w) && Total(gs') <= Total(gs) && |cs'| == |cs| && w + 1 < SIZE_MAX
    requires forall i :: 0 <= i < |cs| ==> cs'[i].width <= cs[i].width + 1
    ensures Fits(cs', gs')
  {
    hide Total;
  }

  lemma OneSmallest(cs: seq<Column>, min1: nat)
    requires Smallest(cs, min1)
    ensures forall m :: Smallest(cs, m) <==> m == min1
  {
  }

  // The rest of a pass, from group number gp on, gives the same as the whole.
  ghost predicate RestOf(cs0: seq<Column>, gs0: seq<Group>, cs: seq<Column>, gs: seq<Group>, gp: nat, min1: nat,
      level: nat) {
    && min1 < level && gp <= |gs| && GroupsOk(gs0, |cs0|) && GroupsOk(gs[gp..], |cs|)
    && PassOn(cs0, gs0, min1, level)
       == (PassOn(cs, gs[gp..], min1, level).0, gs[..gp] + PassOn(cs, gs[gp..], min1, level).1)
  }

  lemma RestNext(cs0: seq<Column>, gs0: seq<Group>, cs: seq<Column>, gs: seq<Group>, cs1: seq<Column>, gs1: seq<Group>,
      gp: nat, min1: nat, level: nat)
    requires RestOf(cs0, gs0, cs, gs, gp, min1, level) && GroupsOk(gs, |cs|) && gp < |gs| == |gs1|
    requires
      var g := gs[gp];
      (cs1, gs1[gp].wanted) == GroupOn(cs, g.wanted, g.start, g.end + 1, min1, level)
    requires gs1 == gs[gp := gs[gp].(wanted := gs1[gp].wanted)]
    ensures
      if gs1[gp].wanted == 0 then RestOf(cs0, gs0, cs1, gs1[..gp] + gs1[gp + 1..], gp, min1, level)
      else RestOf(cs0, gs0, cs1, gs1, gp + 1, min1, level)
  {
    hide GroupOn, PassOn;
    var rest := gs[gp..];
    PassStep(cs, rest, min1, level);
    assert rest[0] == gs[gp] && rest[1..] == gs[gp + 1..] == gs1[gp + 1..] && gs1[..gp] == gs[..gp];
    var next := gs1[..gp] + gs1[gp + 1..];
    assert next[gp..] == rest[1..] && next[..gp] == gs[..gp];
    assert gs1[..gp + 1] == gs[..gp] + [gs1[gp]];
    var r := PassOn(cs1, rest[1..], min1, level).1;
    assert gs[..gp] + ([gs1[gp]] + r) == gs1[..gp + 1] + r && gs[..gp] + ([] + r) == gs[..gp] + r;
  }

  lemma RestAll(cs: seq<Column>, gs: seq<Group>, min1: nat, level: nat)
    requires min1 < level && GroupsOk(gs, |cs|)
    ensures RestOf(cs, gs, cs, gs, 0, min1, level)
  {
    hide PassOn;
    assert gs[0..] == gs && gs[..0] + PassOn(cs, gs, min1, level).1 == PassOn(cs, gs, min1, level).1;
  }

  lemma RestDone(cs0: seq<Column>, gs0: seq<Group>, cs: seq<Column>, gs: seq<Group>, min1: nat, level: nat)
    requires RestOf(cs0, gs0, cs, gs, |gs|, min1, level)
    ensures PassOn(cs0, gs0, min1, level) == (cs, gs)
  {
    assert gs[|gs|..] == [] && gs[..|gs|] == gs && gs + [] == gs;
  }

  // The loop ends for the one if and only if it ends for the other.
  ghost predicate SameOutcome(cs0: seq<Column>, gs0: seq<Group>, cs: seq<Column>, gs: seq<Group>) {
    GroupsOk(gs0, |cs0|) && GroupsOk(gs, |cs|) && (Levels(cs0, gs0) <==> gs == [] || Levels(cs, gs))
  }

  lemma OutcomeStart(cs: seq<Column>, gs: seq<Group>)
    requires GroupsOk(gs, |cs|)
    ensures SameOutcome(cs, gs, cs, gs)
  {
    if gs == [] {
      assert Reaches(cs, gs, 0, 0);
    }
  }

  // A pass over separate groups does not change whether the loop ends.
  lemma OutcomeKept(cs: seq<Column>, gs: seq<Group>, cs': seq<Column>, gs': seq<Group>, min1: nat, min2: nat,
      level: nat)
    requires GroupsOk(gs, |cs|) && Separate(gs) && gs != [] && Fits(cs, gs) && Touches(gs, cs, min1)
    requires TwoLeast(cs, min1, min2) && LevelFor(cs, gs, min1, min2, level) && min1 < level
    requires (cs', gs') == PassOn(cs, gs, min1, level)
    ensures Separate(gs') && SameOutcome(cs, gs, cs', gs')
  {
    hide Levels, Touches, TwoLeast, LevelFor, PassOn, Separate, Passed, Total;
    forall j, k | 0 <= j < |cs| && 0 <= k < |gs|
      ensures cs[j].width + gs[k].wanted < SIZE_MAX
    {
      TotalAtLeast(gs, k);
    }
    PassEffect(cs, gs, min1, level);
    LevelsKept(cs, gs, cs', gs', min1, min2, level);
  }

  lemma {:induction false} TotalAtLeast(gs: seq<Group>, k: nat)
    requires k < |gs|
    ensures Total(gs) >= gs[k].wanted
  {
    if k < |gs| - 1 {
      TotalAtLeast(gs[..|gs| - 1], k);
    }
  }

  // No width gets too large for a size_t, whatever is still granted.
  ghost predicate Fits(cs: seq<Column>, gs: seq<Group>) {
    forall i :: 0 <= i < |cs| ==> cs[i].width + Total(gs) < SIZE_MAX
  }

  lemma FitsColumns(cs: seq<Column>, gs: seq<Group>)
    requires Fits(cs, gs)
    ensures forall i :: 0 <= i < |cs| ==> cs[i].width < SIZE_MAX
    ensures GroupsOk(gs, |cs|) && gs != [] ==> |cs| > 0
  {
    hide Total;
    assert gs != [] ==> gs[0] in gs;
  }

  // The columns have grown by exactly what the groups now want less.
  ghost predicate Spent(cs0: seq<Column>, gs0: seq<Group>, cs: seq<Column>, gs: seq<Group>) {
    && Grown(cs, cs0) && Total(gs) <= Total(gs0) && Spans(gs) <= Spans(gs0)
    && Widths(cs, 0, |cs|) - Widths(cs0, 0, |cs|) == Total(gs0) - Total(gs)
    && forall i :: 0 <= i < |cs| ==> cs[i].width - cs0[i].width <= Total(gs0) - Total(gs)
  }

  lemma SpansKept(gs: seq<Group>, k: nat, w: nat)
    requires k < |gs|
    ensures Spans(gs[k := gs[k].(wanted := w)]) <= Spans(gs)
  {
    forall t | t in Spans(gs[k := gs[k].(wanted := w)])
      ensures t in Spans(gs)
    {
      var i :| 0 <= i < |gs| && SpanOf(gs[k := gs[k].(wanted := w)][i]) == t;
      assert gs[i] in gs && SpanOf(gs[i]) == t;
    }
  }

  lemma SpentMore(cs0: seq<Column>, gs0: seq<Group>, cs: seq<Column>, gs: seq<Group>, cs': seq<Column>, gs': seq<Group>,
      k: nat, min1: nat)
    requires Spent(cs0, gs0, cs, gs) && Progress(cs, gs, cs', gs', k, min1)
    ensures Spent(cs0, gs0, cs', gs') && Total(gs') <= Total(gs)
  {
    hide Total, Widths;
    SpansKept(gs, k, gs'[k].wanted);
    hide Spans;
  }

  lemma SpentNone(cs: seq<Column>, gs: seq<Group>)
    ensures Spent(cs, gs, cs, gs)
  {
    hide Total, Widths, Spans;
  }

  lemma SpentOn(cs0: seq<Column>, gs0: seq<Group>, cs: seq<Column>, gs: seq<Group>, cs': seq<Column>, gs': seq<Group>)
    requires Spent(cs0, gs0, cs, gs) && Spent(cs, gs, cs', gs')
    ensures Spent(cs0, gs0, cs', gs')
  {
    hide Total, Widths, Spans;
  }

  lemma SpentGrown(cs0: seq<Column>, gs0: seq<Group>, cs: seq<Column>, gs: seq<Group>)
    requires Spent(cs0, gs0, cs, gs)
    ensures Grown(cs, cs0) && Total(gs) <= Total(gs0)
  {
  }

  // The groups stay well-formed when a group has been processed.
  lemma AfterGroup(cs: seq<Column>, gs: seq<Group>, cs': seq<Column>, gs': seq<Group>, k: nat, min1: nat, done: bool)
    requires Progress(cs, gs, cs', gs', k, min1) && GroupsOk(gs, |cs|) && (done <==> gs'[k].wanted == 0)
    ensures |gs'| == |gs| && |cs'| == |cs| && gs' == gs[k := gs[k].(wanted := gs'[k].wanted)]
    ensures GroupsOk(if done then gs'[..k] + gs'[k + 1..] else gs', |cs|)
  {
    hide Total;
  }

  lemma SpentSame(cs0: seq<Column>, gs0: seq<Group>, cs: seq<Column>, gs: seq<Group>, gs': seq<Group>)
    requires Spent(cs0, gs0, cs, gs) && Total(gs') == Total(gs) && Spans(gs') <= Spans(gs)
    ensures Spent(cs0, gs0, cs, gs')
  {
    hide Total;
  }

  lemma StillFits(cs0: seq<Column>, gs0: seq<Group>, cs: seq<Column>, gs: seq<Group>)
    requires Fits(cs0, gs0) && Spent(cs0, gs0, cs, gs)
    ensures Fits(cs, gs)
  {
    hide Total;
  }

  lemma TouchesOne(gs: seq<Group>, cs: seq<Column>, k: nat, width: nat)
    requires GroupsOk(gs, |cs|) && k < |gs| && NarrowIn(gs[k], cs, width) > 0
    ensures Touches(gs, cs, width)
  {
    NarrowSome(cs, gs[k].start, gs[k].end + 1, width);
  }

  lemma TouchesNone(gs: seq<Group>, cs: seq<Column>, width: nat)
    requires GroupsOk(gs, |cs|)
    requires forall k :: 0 <= k < |gs| ==> NarrowIn(gs[k], cs, width) == 0
    ensures !Touches(gs, cs, width)
  {
    forall k, i | 0 <= k < |gs| && gs[k].start <= i <= gs[k].end && i < |cs|
      ensures cs[i].width != width
    {
      NarrowSome(cs, gs[k].start, gs[k].end + 1, width);
    }
  }

  // Only group k and columns of width min1 have changed, and no column has
  // grown by more than the groups now want less.
  ghost predicate Progress(cs0: seq<Column>, gs0: seq<Group>, cs: seq<Column>, gs: seq<Group>, k: nat, min1: nat) {
    && k < |gs0| == |gs| && gs == gs0[k := gs0[k].(wanted := gs[k].wanted)]
    && Grown(cs, cs0) && Total(gs) <= Total(gs0)
    && (forall i :: 0 <= i < |cs| ==> cs[i].width - cs0[i].width <= Total(gs0) - Total(gs))
    && Widths(cs, 0, |cs|) - Widths(cs0, 0, |cs|) == Total(gs0) - Total(gs)
    && (forall i :: 0 <= i < |cs| && cs0[i].width != min1 ==> cs[i] == cs0[i])
  }

  lemma ProgressStart(cs: seq<Column>, gs: seq<Group>, k: nat, min1: nat)
    requires k < |gs|
    ensures Progress(cs, gs, cs, gs, k, min1)
  {
    hide Total;
  }

  lemma ProgressStep(cs0: seq<Column>, gs0: seq<Group>, cs: seq<Column>, gs: seq<Group>, k: nat, min1: nat, i: nat,
      d: nat)
    requires Progress(cs0, gs0, cs, gs, k, min1) && i < |cs| && cs[i] == cs0[i] && cs[i].width == min1
             && d <= gs[k].wanted
    ensures Progress(cs0, gs0, cs[i := cs[i].(width := cs[i].width + d)], gs[k := gs[k].(wanted := gs[k].wanted - d)],
            k, min1)
  {
    LessMissing(gs, k, d);
    WidthsGrow(cs, 0, |cs|, i, d);
    hide Total, Missing, Widths;
  }

  function Defaults(k: Column, last: bool): Column {
    k.(width := Max(k.width, 1), spacing := if k.spacing == SIZE_MAX || last then 3 else k.spacing)
  }

  lemma {:induction false} MissingAtLeast(gs: seq<Group>, i: nat)
    requires i < |gs|
    ensures Missing(gs, SpanOf(gs[i])) >= gs[i].wanted
  {
    if i < |gs| - 1 {
      MissingAtLeast(gs[..|gs| - 1], i);
    }
  }

  lemma StartPromised(wants: Wants, gs: seq<Group>, cs: seq<Column>)
    requires Records(gs, wants) && forall s :: s in wants ==> s.0 < s.1 < |cs|
    ensures Promised(wants, gs, cs)
  {
    forall s | s in wants
      ensures Missing(gs, s) >= wants[s]
    {
      var i :| 0 <= i < |gs| && SpanOf(gs[i]) == s;
      MissingAtLeast(gs, i);
    }
  }

  // The groups before position gp want what their spans lack, and the others
  // still want all of it; no span that lacks something is missing.
  ghost predicate Sorted(wants: Wants, gs: seq<Group>, gp: nat, cs: seq<Column>) {
    && gp <= |gs|
    && (forall i {:trigger gs[i]} :: 0 <= i < |gs| ==>
          && SpanOf(gs[i]) in wants && gs[i].start <= gs[i].end < |cs|
          && if i < gp then gs[i].wanted > 0 && gs[i].wanted == wants[SpanOf(gs[i])] - Wide(cs, gs[i].start, gs[i].end)
             else gs[i].wanted == wants[SpanOf(gs[i])])
    && (forall s :: s in wants && s.0 <= s.1 < |cs| && Wide(cs, s.0, s.1) < wants[s] ==>
       exists i :: 0 <= i < |gs| && SpanOf(gs[i]) == s)
  }

  lemma StartSorted(wants: Wants, gs: seq<Group>, cs: seq<Column>)
    requires Records(gs, wants) && forall s :: s in wants ==> s.0 < s.1 < |cs|
    ensures Sorted(wants, gs, 0, cs)
  {
    hide Wide;
  }

  // The next group is dismissed if it is wide enough.
  lemma SortedDrop(wants: Wants, gs: seq<Group>, gp: nat, cs: seq<Column>)
    requires Sorted(wants, gs, gp, cs) && gp < |gs| && gs[gp].wanted <= Wide(cs, gs[gp].start, gs[gp].end)
    ensures Sorted(wants, gs[..gp] + gs[gp + 1..], gp, cs)
  {
    hide Wide;
    var gs' := gs[..gp] + gs[gp + 1..];
    forall i | 0 <= i < |gs'|
      ensures gs'[i] == gs[if i < gp then i else i + 1]
    {
    }
    forall s | s in wants && s.0 <= s.1 < |cs| && Wide(cs, s.0, s.1) < wants[s]
      ensures exists i :: 0 <= i < |gs'| && SpanOf(gs'[i]) == s
    {
      var i :| 0 <= i < |gs| && SpanOf(gs[i]) == s;
      assert SpanOf(gs'[if i < gp then i else i - 1]) == s;
    }
  }

  // Otherwise, it wants what its span lacks.
  lemma SortedKeep(wants: Wants, gs: seq<Group>, gp: nat, cs: seq<Column>)
    requires Sorted(wants, gs, gp, cs) && gp < |gs| && gs[gp].wanted > Wide(cs, gs[gp].start, gs[gp].end)
    ensures Sorted(wants, gs[gp := gs[gp].(wanted := gs[gp].wanted - Wide(cs, gs[gp].start, gs[gp].end))], gp + 1, cs)
  {
    hide Wide;
    var gs' := gs[gp := gs[gp].(wanted := gs[gp].wanted - Wide(cs, gs[gp].start, gs[gp].end))];
    assert forall i :: 0 <= i < |gs| ==> SpanOf(gs'[i]) == SpanOf(gs[i]);
  }

  lemma AllSorted(wants: Wants, gs: seq<Group>, cs: seq<Column>)
    requires Sorted(wants, gs, |gs|, cs)
    ensures GroupsOk(gs, |cs|) && Records(gs, Lacks(wants, cs))
  {
    hide Wide;
  }

  // Replacing what group k wants by what is missing.
  lemma Reduced(wants: Wants, gs: seq<Group>, cs: seq<Column>, k: nat, w: nat)
    requires Promised(wants, gs, cs) && Arranged(gs) && k < |gs| && SpanOf(gs[k]) in wants
    requires w <= gs[k].wanted && w + Wide(cs, gs[k].start, gs[k].end) >= wants[SpanOf(gs[k])]
    ensures
      var gs' := gs[k := gs[k].(wanted := w)];
      Promised(wants, gs', cs) && Arranged(gs') && Total(gs') <= Total(gs)
  {
    var gs' := gs[k := gs[k].(wanted := w)];
    LessMissing(gs, k, gs[k].wanted - w);
    MissingAtLeast(gs', k);
    assert forall i :: 0 <= i < |gs| ==> SpanOf(gs'[i]) == SpanOf(gs[i]);
  }

  lemma Removed(wants: Wants, gs: seq<Group>, cs: seq<Column>, k: nat)
    requires Promised(wants, gs, cs) && Arranged(gs) && k < |gs| && SpanOf(gs[k]) in wants
    requires Wide(cs, gs[k].start, gs[k].end) >= wants[SpanOf(gs[k])]
    ensures
      var gs' := gs[..k] + gs[k + 1..];
      Promised(wants, gs', cs) && Arranged(gs') && Total(gs') <= Total(gs)
  {
    var gs' := gs[..k] + gs[k + 1..];
    DropGroup(gs, k);
    forall i, j | 0 <= i < j < |gs'|
      ensures !Dominates(SpanOf(gs'[i]), SpanOf(gs'[j]))
    {
      assert gs'[i] == gs[if i < k then i else i + 1] && gs'[j] == gs[if j < k then j else j + 1];
    }
  }
}
