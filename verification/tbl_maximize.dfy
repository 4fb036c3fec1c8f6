// Distributing the line width: the end of tblcalc() in userland/mandoc/out.c,
// read over exact rational numbers.
module TblMaximize {
  import opened TblColumns
  import opened TblLevels

  // The largest width of the columns to equalize.
  function EqualWidth(cs: seq<Column>): nat {
    if cs == [] then 0
    else
      var k, w := cs[|cs| - 1], EqualWidth(cs[..|cs| - 1]);
      if k.equal then Max(w, k.width) else w
  }

  // The number of columns to maximize, and their width.
  function MaxCount(cs: seq<Column>): nat {
    if cs == [] then 0 else MaxCount(cs[..|cs| - 1]) + if cs[|cs| - 1].wmax then 1 else 0
  }

  function MaxTotal(cs: seq<Column>): nat {
    if cs == [] then 0 else MaxTotal(cs[..|cs| - 1]) + if cs[|cs| - 1].wmax then cs[|cs| - 1].width else 0
  }

  // The width of the other columns.
  function FixedTotal(cs: seq<Column>): nat {
    if cs == [] then 0 else FixedTotal(cs[..|cs| - 1]) + if cs[|cs| - 1].wmax then 0 else cs[|cs| - 1].width
  }

  function WidthTotal(cs: seq<Column>): nat {
    if cs == [] then 0 else WidthTotal(cs[..|cs| - 1]) + cs[|cs| - 1].width
  }

  lemma {:induction false} TotalSplits(cs: seq<Column>)
    ensures WidthTotal(cs) == FixedTotal(cs) + MaxTotal(cs)
  {
    if cs != [] {
      TotalSplits(cs[..|cs| - 1]);
    }
  }

  // How much is missing to the common width in columns that are both to be
  // equalized and to be maximized.
  function Overlap(cs: seq<Column>, w: nat): nat {
    if cs == [] then 0
    else
      var k := cs[|cs| - 1];
      Overlap(cs[..|cs| - 1], w) + if k.equal && k.wmax && k.width < w then w - k.width else 0
  }

  lemma {:induction false} NoOverlap(cs: seq<Column>, w: nat)
    ensures Overlap(cs, w) == 0 <==> forall i :: 0 <= i < |cs| && cs[i].equal && cs[i].wmax ==> cs[i].width >= w
  {
    if cs != [] {
      var n := |cs| - 1;
      NoOverlap(cs[..n], w);
      assert forall i :: 0 <= i < n ==> cs[..n][i] == cs[i];
    }
  }

  lemma {:induction false} NotWider(cs: seq<Column>)
    ensures forall i :: 0 <= i < |cs| && cs[i].equal ==> cs[i].width <= EqualWidth(cs)
    ensures EqualWidth(cs) > 0 ==> exists i :: 0 <= i < |cs| && cs[i].equal && cs[i].width == EqualWidth(cs)
  {
    if cs != [] {
      var n := |cs| - 1;
      NotWider(cs[..n]);
      assert forall i :: 0 <= i < n ==> cs[..n][i] == cs[i];
      if EqualWidth(cs) > 0 && !(cs[n].equal && cs[n].width == EqualWidth(cs)) {
        var i :| 0 <= i < n && cs[..n][i].equal && cs[..n][i].width == EqualWidth(cs[..n]);
        assert cs[i].equal && cs[i].width == EqualWidth(cs);
      }
    }
  }

  function Equalized(k: Column, w: nat): Column {
    if k.equal then k.(width := w) else k
  }

  // Give all columns to equalize the same width; the total width of the
  // columns not to maximize comes out too large if columns to maximize are
  // widened as well.
  method Equalize(cols: array<Column>, rmargin: nat) returns (nxcol: nat, xwidth: nat)
    modifies cols
    ensures forall i :: 0 <= i < cols.Length ==> cols[i] == Equalized(old(cols[i]), EqualWidth(old(cols[..])))
    ensures nxcol == MaxCount(cols[..])
    ensures nxcol > 0 && rmargin > 0 ==>
              xwidth == FixedTotal(cols[..]) + Overlap(old(cols[..]), EqualWidth(old(cols[..])))
  {
    ghost var cs := cols[..];
    var necol := 0;
    var ewidth: nat := 0;
    nxcol, xwidth := 0, 0;
    for icol := 0 to cols.Length
      invariant necol >= 0 && (necol == 0 <==> forall i :: 0 <= i < icol ==> !cs[i].equal)
      invariant ewidth == EqualWidth(cs[..icol]) && nxcol == MaxCount(cs[..icol]) && xwidth == FixedTotal(cs[..icol])
    {
      assert cs[..icol + 1][..icol] == cs[..icol];
      var col := cols[icol];
      if col.equal {
        necol := necol + 1;
        if ewidth < col.width {
          ewidth := col.width;
        }
      }
      if col.wmax {
        nxcol := nxcol + 1;
      } else {
        xwidth := xwidth + col.width;
      }
    }
    assert cs[..cols.Length] == cs;
    NotWider(cs);
    if necol > 0 {
      xwidth := Level(cols, ewidth, nxcol > 0 && rmargin > 0, xwidth);
    } else {
      NoneEqual(cs, ewidth);
    }
    SameCount(cs, cols[..]);
  }

  lemma {:induction false} NoneEqual(cs: seq<Column>, w: nat)
    requires forall i :: 0 <= i < |cs| ==> !cs[i].equal
    ensures Overlap(cs, w) == 0
  {
    if cs != [] {
      NoneEqual(cs[..|cs| - 1], w);
    }
  }

  lemma {:induction false} SameCount(cs: seq<Column>, cs': seq<Column>)
    requires |cs'| == |cs| && forall i :: 0 <= i < |cs| ==> cs'[i].wmax == cs[i].wmax
    ensures MaxCount(cs') == MaxCount(cs)
  {
    if cs != [] {
      SameCount(cs[..|cs| - 1], cs'[..|cs| - 1]);
    }
  }

  lemma TotalsStart()
    ensures FixedTotal([]) == 0 && forall w :: Overlap([], w) == 0
  {
  }

  lemma TotalsNext(cs: seq<Column>, k: Column, w: nat)
    ensures FixedTotal(cs + [k]) == FixedTotal(cs) + if k.wmax then 0 else k.width
    ensures Overlap(cs + [k], w) == Overlap(cs, w) + if k.equal && k.wmax && k.width < w then w - k.width else 0
  {
    assert (cs + [k])[..|cs|] == cs;
  }

  // Give the columns to equalize the width ewidth, and add what they gain to
  // xwidth if that is needed.
  method Level(cols: array<Column>, ewidth: nat, needed: bool, xwidth: nat) returns (r: nat)
    requires forall i :: 0 <= i < cols.Length && cols[i].equal ==> cols[i].width <= ewidth
    requires xwidth == FixedTotal(cols[..])
    modifies cols
    ensures forall i :: 0 <= i < cols.Length ==> cols[i] == Equalized(old(cols[i]), ewidth)
    ensures needed ==> r == FixedTotal(cols[..]) + Overlap(old(cols[..]), ewidth)
  {
    hide FixedTotal, Overlap;
    ghost var cs := cols[..];
    r := xwidth;
    TotalsStart();
    assert cs[..0] == [] == cols[..0];
    for icol := 0 to cols.Length
      invariant forall i :: 0 <= i < cols.Length ==> cols[i] == if i < icol then Equalized(cs[i], ewidth) else cs[i]
      invariant needed ==>
                  r + FixedTotal(cs[..icol]) == FixedTotal(cs) + FixedTotal(cols[..icol]) + Overlap(cs[..icol], ewidth)
    {
      ghost var before := cols[..icol];
      assert cs[..icol + 1] == cs[..icol] + [cs[icol]];
      TotalsNext(cs[..icol], cs[icol], ewidth);
      TotalsNext(before, Equalized(cs[icol], ewidth), ewidth);
      if cols[icol].equal && cols[icol].width != ewidth {
        if needed {
          r := r + (ewidth - cols[icol].width);
        }
        cols[icol] := cols[icol].(width := ewidth);
      }
      assert cols[..icol + 1] == before + [Equalized(cs[icol], ewidth)];
    }
    assert cols[..cols.Length] == cols[..] && cs[..cols.Length] == cs;
  }

  /*** sharing ****************************************************************/

  // What the first k of n columns get together, without the quirk.
  function Share(avail: nat, n: nat, k: nat): int
    requires n > 0
  {
    (Ratio(avail as real, k as real, n as real) + 0.4995).Floor
  }

  function Ratio(a: real, k: real, n: real): real
    requires n > 0.0
  {
    a * k / n
  }

  lemma RatioEnds(a: real, n: real)
    requires n > 0.0
    ensures Ratio(a, 0.0, n) == 0.0 && Ratio(a, n, n) == a
  {
  }

  lemma ShareEnds(avail: nat, n: nat)
    requires n > 0
    ensures Share(avail, n, 0) == 0 && Share(avail, n, n) == avail
  {
    hide Ratio;
    RatioEnds(avail as real, n as real);
  }

  // The width of column k when the columns before it have got this much.
  function Portion(avail: nat, n: nat, k: nat, given: nat): int
    requires n > 0
  {
    (Ratio(avail as real, k as real, n as real) - given as real + 0.4995).Floor
  }

  // It completes the share of the first k columns.
  lemma PortionIs(avail: nat, n: nat, k: nat, given: nat)
    requires n > 0
    ensures Portion(avail, n, k, given) == Share(avail, n, k) - given
  {
    hide Ratio;
    var x := Ratio(avail as real, k as real, n as real);
    assert (x - given as real + 0.4995).Floor == (x + 0.4995).Floor - given;
  }

  // The column that the quirk makes narrower, counting from one.
  function Quirk(avail: nat, n: nat): int {
    if n == 5 && avail % 5 in {1, 2} then avail % 5 + 2 else -1
  }

  // What the first k of n columns get together.
  function Given(avail: nat, n: nat, k: nat): int
    requires n > 0
  {
    Share(avail, n, k) - if k == Quirk(avail, n) then 1 else 0
  }

  // Even with the quirk, each column gets its n-th part, rounded down or up.
  predicate Even(width: int, avail: nat, n: nat)
    requires n > 0
  {
    avail / n <= width <= avail / n + 1
  }

  // Column number k of those to maximize, counting from zero.
  predicate Granted(width: int, avail: nat, n: nat, k: nat)
    requires n > 0
  {
    width == Given(avail, n, k + 1) - Given(avail, n, k)
  }

  lemma GivenEnds(avail: nat, n: nat)
    requires n > 0
    ensures Given(avail, n, 0) == 0 && Given(avail, n, n) == avail
  {
    hide Share;
    ShareEnds(avail, n);
  }

  lemma GivenEvenly(avail: nat, n: nat, k: nat)
    requires 0 < n && k < n
    ensures Even(Given(avail, n, k + 1) - Given(avail, n, k), avail, n)
  {
    EvenShares(avail, n, k);
    if n == 5 && avail % 5 in {1, 2} {
      QuirkShares(avail);
    }
  }

  lemma QuirkShares(avail: nat)
    requires avail % 5 in {1, 2}
    ensures forall k :: 0 <= k <= 5 ==>
              Share(avail, 5, k) ==
              k * (avail / 5) + if avail % 5 == 1 then [0, 0, 0, 1, 1, 1][k] else [0, 0, 1, 1, 2, 2][k]
  {
    var a, r := avail / 5, avail % 5;
    forall k | 0 <= k <= 5
      ensures Share(avail, 5, k) == k * a + if r == 1 then [0, 0, 0, 1, 1, 1][k] else [0, 0, 1, 1, 2, 2][k]
    {
      ShareOf(a, r, k);
    }
  }

  lemma ShareOf(a: nat, r: nat, k: nat)
    ensures Share(5 * a + r, 5, k) == k * a + (r as real * k as real / 5.0 + 0.4995).Floor
  {
    assert (5 * a + r) as real * k as real == 5.0 * (k * a) as real + r as real * k as real;
  }

  // Distribute the available width evenly to the columns to maximize.
  method Distribute(cols: array<Column>, avail: nat, nxcol: nat)
    requires nxcol > 0 && nxcol == MaxCount(cols[..])
    modifies cols
    ensures MaxTotal(cols[..]) == avail
    ensures forall i :: 0 <= i < cols.Length ==> cols[i] == if old(cols[i]).wmax then
            old(cols[i]).(width := cols[i].width) else old(cols[i])
    ensures forall i :: 0 <= i < cols.Length && old(cols[i]).wmax ==>
              && Granted(cols[i].width, avail, nxcol, MaxCount(old(cols[..])[..i]))
              && Even(cols[i].width, avail, nxcol)
  {
    hide Portion, Even, Granted, Given;
    GivenEnds(avail, nxcol);
    var quirkcol := -1;
    if nxcol == 5 {
      quirkcol := avail % nxcol + 2;
      if quirkcol != 3 && quirkcol != 4 {
        quirkcol := -1;
      }
    }
    assert quirkcol == Quirk(avail, nxcol);
    ghost var cs := cols[..];
    var necol: nat, ewidth: nat := 0, 0;
    for icol := 0 to cols.Length
      invariant necol == MaxCount(cs[..icol]) && ewidth == MaxTotal(cols[..icol])
      invariant ewidth == Given(avail, nxcol, necol)
      invariant forall i :: 0 <= i < cols.Length ==>
                  cols[i] == if i < icol && cs[i].wmax then cs[i].(width := cols[i].width) else cs[i]
      invariant forall i :: 0 <= i < icol && cs[i].wmax ==>
                  Granted(cols[i].width, avail, nxcol, MaxCount(cs[..i])) && Even(cols[i].width, avail, nxcol)
    {
      assert cs[..icol + 1][..icol] == cs[..icol];
      ghost var before := cols[..icol];
      if cols[icol].wmax {
        FewerBefore(cs, icol);
        NextColumn(avail, nxcol, necol, ewidth);
        necol := necol + 1;
        var width := Portion(avail, nxcol, necol, ewidth);
        if necol == quirkcol {
          width := width - 1;
        }
        cols[icol] := cols[icol].(width := width);
        ewidth := ewidth + width;
      }
      assert cols[..icol + 1][..icol] == before;
    }
    assert cols[..cols.Length] == cols[..] && cs[..cols.Length] == cs;
  }

  lemma {:induction false} FewerBefore(cs: seq<Column>, i: nat)
    requires i < |cs| && cs[i].wmax
    ensures MaxCount(cs[..i]) < MaxCount(cs)
    decreases |cs| - i
  {
    var n := |cs| - 1;
    if i < n {
      FewerBefore(cs[..n], i);
      assert cs[..n][..i] == cs[..i];
    }
  }

  // What the next column gets.
  lemma NextColumn(avail: nat, n: nat, k: nat, given: nat)
    requires k < n && given == Given(avail, n, k)
    ensures
      var width := Portion(avail, n, k + 1, given) - if k + 1 == Quirk(avail, n) then 1 else 0;
      && width >= 0 && given + width == Given(avail, n, k + 1)
      && Granted(width, avail, n, k) && Even(width, avail, n)
  {
    hide Share, Portion;
    PortionIs(avail, n, k + 1, given);
    GivenEvenly(avail, n, k);
  }

  lemma RatioNext(a: real, k: real, n: real)
    requires n > 0.0
    ensures Ratio(a, k + 1.0, n) == Ratio(a, k, n) + Ratio(a, 1.0, n)
  {
    assert a * (k + 1.0) == a * k + a;
  }

  lemma Fraction(y: real, n: real, r: real)
    requires y * n == r && 0.0 <= r < n
    ensures 0.0 <= y < 1.0
  {
    Multiples(y, n);
  }

  lemma Multiples(y: real, n: real)
    requires n > 0.0
    ensures y < 0.0 ==> y * n < 0.0
    ensures y >= 1.0 ==> y * n >= n
  {
    if y >= 1.0 {
      assert y * n == (y - 1.0) * n + n;
    }
  }

  lemma OneShare(avail: nat, n: nat)
    requires n > 0
    ensures avail / n == Ratio(avail as real, 1.0, n as real).Floor
  {
    var q, r, nr := avail / n, avail % n, n as real;
    var x := Ratio(avail as real, 1.0, nr);
    assert avail as real == (q * n) as real + r as real == q as real * nr + r as real;
    assert x * nr == avail as real;
    var y := x - q as real;
    assert y * nr == x * nr - q as real * nr;
    Fraction(y, nr, r as real);
  }

  // Without the quirk, each column gets its n-th part, rounded down or up.
  lemma EvenShares(avail: nat, n: nat, k: nat)
    requires n > 0
    ensures avail / n <= Share(avail, n, k + 1) - Share(avail, n, k) <= avail / n + 1
  {
    hide Ratio;
    var d := Ratio(avail as real, 1.0, n as real);
    RatioNext(avail as real, k as real, n as real);
    OneShare(avail, n);
    var x := Ratio(avail as real, k as real, n as real) + 0.4995;
    assert Share(avail, n, k + 1) == (x + d).Floor;
  }

  // Equalize and maximize columns.  When there are columns to maximize and
  // any width is left for them, the table fills the line exactly, unless
  // some of them had to be widened to equalize them.
  method Finish(cols: array<Column>, offset: nat, rmargin: nat, box: nat)
    requires cols.Length > 0
    modifies cols
    ensures
      var cs := old(cols[..]);
      var w := EqualWidth(cs);
      var level := seq(|cs|, i requires 0 <= i < |cs| => Equalized(cs[i], w));
      var used := FixedTotal(level) + Overlap(cs, w) + 3 * (|cs| - 1) + box;
      if MaxCount(cs) > 0 && offset + used < rmargin then
        && offset + WidthTotal(cols[..]) + 3 * (|cs| - 1) + box == rmargin - Overlap(cs, w)
        && forall i :: 0 <= i < |cs| ==>
             if cs[i].wmax then Even(cols[i].width, rmargin - offset - used, MaxCount(cs)) else cols[i] == level[i]
      else cols[..] == level
  {
    hide EqualWidth, Overlap, FixedTotal, MaxTotal, WidthTotal, MaxCount, Even, Granted;
    ghost var cs, w := cols[..], EqualWidth(cols[..]);
    ghost var level := seq(|cs|, i requires 0 <= i < |cs| => Equalized(cs[i], w));
    SameCount(cs, level);
    var nxcol, xwidth := Equalize(cols, rmargin);
    assert cols[..] == level;
    if nxcol > 0 && rmargin > 0 {
      xwidth := xwidth + 3 * (cols.Length - 1) + box;
      if rmargin <= offset + xwidth {
        return;
      }
      Distribute(cols, rmargin - offset - xwidth, nxcol);
      SameFixed(level, cols[..]);
      TotalSplits(cols[..]);
    }
  }

  // For example, a column of width 1 that is both to be equalized with one of
  // width 5 and to be maximized: the table ends 4 before the right margin.
  method OverlapExample() returns (width: nat)
    ensures width == 20 - 4
  {
    var cols := new Column[][Column(1, 3, true, true), Column(5, 3, true, false)];
    ghost var cs := cols[..];
    assert cs == [Column(1, 3, true, true), Column(5, 3, true, false)] && cs[..1] == [cs[0]] && cs[..1][..0] == [];
    assert EqualWidth(cs[..1]) == 1 && EqualWidth(cs) == 5 && Overlap(cs[..1], 5) == 4 && Overlap(cs, 5) == 4;
    assert MaxCount(cs[..1]) == 1 && MaxCount(cs) == 1;
    ghost var level := seq(2, i requires 0 <= i < 2 => Equalized(cs[i], 5));
    assert level[..1][..0] == [] && FixedTotal(level[..1]) == 0 && FixedTotal(level) == 5;
    Finish(cols, 0, 20, 0);
    ghost var cs' := cols[..];
    assert WidthTotal(cs') == 13;
    assert cs'[..1] == [cs'[0]] && cs'[..1][..0] == [] && WidthTotal(cs'[..1]) == cs'[0].width;
    width := cols[0].width + 3 + cols[1].width;
  }

  lemma {:induction false} SameFixed(cs: seq<Column>, cs': seq<Column>)
    requires |cs'| == |cs|
    requires forall i :: 0 <= i < |cs| ==> cs'[i].wmax == cs[i].wmax && (cs[i].wmax || cs'[i] == cs[i])
    ensures FixedTotal(cs') == FixedTotal(cs)
  {
    if cs != [] {
      SameFixed(cs[..|cs| - 1], cs'[..|cs| - 1]);
    }
  }
}
