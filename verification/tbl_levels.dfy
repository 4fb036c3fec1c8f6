// When widening the columns of a table ends: the loop of tblcalc() in
// userland/mandoc/out.c that makes the narrowest columns wider.
module TblLevels {

  const SIZE_MAX: nat := 0xffff_ffff_ffff_ffff

  // A column: its width, the spacing behind it, and the flags of its cells
  // asking for equal width or for maximal width.
  datatype Column = Column(width: nat, spacing: nat, equal: bool, wmax: bool)

  // Some adjacent columns joined by a span, and the width wanted for them.
  datatype Group = Group(start: nat, end: nat, wanted: nat)

  // The groups lie inside of n columns, and they all still want something.
  ghost predicate GroupsOk(gs: seq<Group>, n: nat) {
    forall i :: 0 <= i < |gs| ==> gs[i].start <= gs[i].end < n && gs[i].wanted > 0
  }

  predicate Outside(g: Group, j: nat) {
    j < g.start || g.end < j
  }

  ghost predicate OutsideAll(gs: seq<Group>, j: nat) {
    forall k :: 0 <= k < |gs| ==> Outside(gs[k], j)
  }

  // No column is in two groups.
  ghost predicate Separate(gs: seq<Group>) {
    forall k, l :: 0 <= k < l < |gs| ==> gs[k].end < gs[l].start || gs[l].end < gs[k].start
  }

  // Does a remaining group contain a column of this width?
  ghost predicate Touches(gs: seq<Group>, cs: seq<Column>, width: nat) {
    exists k, i {:trigger gs[k], cs[i]} :: 0 <= k < |gs| && gs[k].start <= i <= gs[k].end && i < |cs|
        && cs[i].width == width
  }

  // The smallest width of all columns.
  ghost predicate Smallest(cs: seq<Column>, min1: nat) {
    (exists i :: 0 <= i < |cs| && cs[i].width == min1) && (forall i :: 0 <= i < |cs| ==> min1 <= cs[i].width)
  }

  // The two smallest widths.
  ghost predicate TwoLeast(cs: seq<Column>, min1: nat, min2: nat) {
    && Smallest(cs, min1) && min1 < min2 <= SIZE_MAX
    && (forall i :: 0 <= i < |cs| ==> cs[i].width == min1 || cs[i].width >= min2)
    && (min2 == SIZE_MAX || exists i :: 0 <= i < |cs| && cs[i].width == min2)
  }

  /*** counting ******************************************************************/

  // How many of the columns from i to j - 1 have this width?
  function Narrow(cs: seq<Column>, i: nat, j: nat, width: nat): nat
    requires i <= j <= |cs|
  {
    if i == j then 0 else Narrow(cs, i, j - 1, width) + if cs[j - 1].width == width then 1 else 0
  }

  // How many columns of this width are in a group.
  function NarrowIn(g: Group, cs: seq<Column>, width: nat): nat {
    if g.start <= g.end < |cs| then Narrow(cs, g.start, g.end + 1, width) else 0
  }

  lemma {:induction false} NarrowMore(cs: seq<Column>, i: nat, k: nat, j: nat, width: nat)
    requires i <= k < j <= |cs| && cs[k].width == width
    ensures Narrow(cs, i, j, width) > 0
  {
    if k < j - 1 {
      NarrowMore(cs, i, k, j - 1, width);
    }
  }

  lemma {:induction false} NarrowSome(cs: seq<Column>, i: nat, j: nat, width: nat)
    requires i <= j <= |cs|
    ensures Narrow(cs, i, j, width) > 0 <==> exists k :: i <= k < j && cs[k].width == width
  {
    if i < j {
      NarrowSome(cs, i, j - 1, width);
    }
  }

  lemma {:induction false} NarrowFirst(cs: seq<Column>, i: nat, j: nat, width: nat)
    requires i < j <= |cs|
    ensures Narrow(cs, i, j, width) == Narrow(cs, i + 1, j, width) + if cs[i].width == width then 1 else 0
  {
    if i < j - 1 {
      NarrowFirst(cs, i, j - 1, width);
    }
  }

  lemma {:induction false} NarrowSame(cs: seq<Column>, cs': seq<Column>, i: nat, j: nat, width: nat)
    requires i <= j <= |cs| == |cs'| && forall x :: i <= x < j ==> cs'[x] == cs[x]
    ensures Narrow(cs', i, j, width) == Narrow(cs, i, j, width)
  {
    if i < j {
      NarrowSame(cs, cs', i, j - 1, width);
    }
  }

  // The width that is enough for a group if all its narrowest columns get it.
  function Enough(g: Group, cs: seq<Column>, min1: nat, min2: nat): nat
    requires g.start <= g.end < |cs| && g.wanted > 0 && min1 < min2
  {
    var necol := Narrow(cs, g.start, g.end + 1, min1);
    if necol == 0 then min2
    else if min1 + (g.wanted - 1) / necol + 1 > min2 then min2
    else min1 + (g.wanted - 1) / necol + 1
  }

  // The width that a pass gives to the narrowest columns.
  ghost predicate LevelFor(cs: seq<Column>, gs: seq<Group>, min1: nat, min2: nat, level: nat)
    requires GroupsOk(gs, |cs|)
  {
    && min1 < level <= min2 && (forall k :: 0 <= k < |gs| ==> level <= Enough(gs[k], cs, min1, min2))
    && (level == min2 || exists k :: 0 <= k < |gs| && level == Enough(gs[k], cs, min1, min2))
  }

  /*** one pass ******************************************************************/

  // Widening those columns from i to j - 1 that have the width min1 up to the
  // width level, until q is used up.
  function GroupOn(cs: seq<Column>, q: nat, i: nat, j: nat, min1: nat, level: nat): (r: (seq<Column>, nat))
    requires i <= j <= |cs| && min1 < level
    ensures |r.0| == |cs|
    decreases j - i
  {
    if i == j then (cs, q)
    else if cs[i].width != min1 then GroupOn(cs, q, i + 1, j, min1, level)
    else if q <= level - min1 then (cs[i := cs[i].(width := cs[i].width + q)], 0)
    else GroupOn(cs[i := cs[i].(width := level)], q - (level - min1), i + 1, j, min1, level)
  }

  // Doing so for all groups, one after the other, and dismissing those that
  // want nothing more.
  function PassOn(cs: seq<Column>, gs: seq<Group>, min1: nat, level: nat): (r: (seq<Column>, seq<Group>))
    requires min1 < level && forall k :: 0 <= k < |gs| ==> gs[k].start <= gs[k].end < |cs|
    ensures |r.0| == |cs|
    decreases |gs|
  {
    if gs == [] then (cs, [])
    else
      var g := gs[0];
      var (cs1, left) := GroupOn(cs, g.wanted, g.start, g.end + 1, min1, level);
      var (cs2, rest) := PassOn(cs1, gs[1..], min1, level);
      (cs2, (if left == 0 then [] else [g.(wanted := left)]) + rest)
  }

  // What has become of the columns i to j - 1, q being wanted for them.
  ghost predicate Changed(cs: seq<Column>, cs': seq<Column>, q: nat, i: nat, j: nat, min1: nat, level: nat)
    requires i <= j <= |cs| && min1 < level
  {
    var used := Narrow(cs, i, j, min1) * (level - min1);
    && |cs'| == |cs|
    && (forall x :: i <= x < j ==>
          if cs[x].width != min1 then cs'[x] == cs[x]
          else cs'[x] == cs[x].(width := cs'[x].width) && min1 <= cs'[x].width <= level)
    && (q >= used ==> forall x :: i <= x < j && cs[x].width == min1 ==> cs'[x].width == level)
    && (q < used ==> exists x :: i <= x < j && cs[x].width == min1 && cs'[x].width < level)
  }

  lemma {:induction false} GroupEffect(cs: seq<Column>, q: nat, i: nat, j: nat, min1: nat, level: nat)
    requires i <= j <= |cs| && min1 < level && q > 0
    ensures
      var (cs', left) := GroupOn(cs, q, i, j, min1, level);
      var used := Narrow(cs, i, j, min1) * (level - min1);
      && Changed(cs, cs', q, i, j, min1, level) && left == (if q > used then q - used else 0)
      && forall x :: 0 <= x < |cs| && !(i <= x < j) ==> cs'[x] == cs[x]
    decreases j - i
  {
    if i < j {
      var d := level - min1;
      NarrowFirst(cs, i, j, min1);
      var n := Narrow(cs, i + 1, j, min1);
      if cs[i].width != min1 {
        GroupEffect(cs, q, i + 1, j, min1, level);
      } else {
        assert (n + 1) * d == n * d + d;
        if q > d {
          var cs1 := cs[i := cs[i].(width := level)];
          NarrowSame(cs, cs1, i + 1, j, min1);
          GroupEffect(cs1, q - d, i + 1, j, min1, level);
        } else {
          FirstEnough(cs, q, i, j, min1, level);
        }
      }
    }
  }

  lemma Times(n: nat, d: nat)
    requires d > 0
    ensures n == 0 <==> n * d < d
  {
    if n > 0 {
      assert n * d == (n - 1) * d + d;
    }
  }

  // The first column takes all.
  lemma FirstEnough(cs: seq<Column>, q: nat, i: nat, j: nat, min1: nat, level: nat)
    requires i < j <= |cs| && min1 < level && 0 < q <= level - min1 && cs[i].width == min1
    ensures Changed(cs, GroupOn(cs, q, i, j, min1, level).0, q, i, j, min1, level)
    ensures q <= Narrow(cs, i, j, min1) * (level - min1)
  {
    var d, n := level - min1, Narrow(cs, i + 1, j, min1);
    NarrowFirst(cs, i, j, min1);
    assert (n + 1) * d == n * d + d;
    var cs' := GroupOn(cs, q, i, j, min1, level).0;
    if q < (n + 1) * d {
      if q < d {
        assert cs'[i].width < level;
      } else {
        NarrowSome(cs, i + 1, j, min1);
        Times(n, d);
        var x :| i + 1 <= x < j && cs[x].width == min1;
        assert cs'[x].width < level;
      }
    } else {
      Times(n, d);
      NarrowSome(cs, i + 1, j, min1);
    }
  }

  // What is left of these groups.
  function Left(cs: seq<Column>, gs: seq<Group>, min1: nat, level: nat): (r: seq<Group>)
    requires min1 < level && forall k :: 0 <= k < |gs| ==> gs[k].start <= gs[k].end < |cs|
    ensures |r| <= |gs|
  {
    if gs == [] then []
    else
      var g := gs[0];
      var used := Narrow(cs, g.start, g.end + 1, min1) * (level - min1);
      (if g.wanted > used then [g.(wanted := g.wanted - used)] else []) + Left(cs, gs[1..], min1, level)
  }

  // A pass over separate groups changes each of them as if it was alone.
  ghost predicate Passed(cs: seq<Column>, gs: seq<Group>, cs': seq<Column>, gs': seq<Group>, min1: nat, level: nat)
    requires min1 < level && GroupsOk(gs, |cs|)
  {
    && |cs'| == |cs| && gs' == Left(cs, gs, min1, level)
    && (forall j :: 0 <= j < |cs| && OutsideAll(gs, j) ==> cs'[j] == cs[j])
    && forall k {:trigger gs[k]} :: 0 <= k < |gs| ==>
         Changed(cs, cs', gs[k].wanted, gs[k].start, gs[k].end + 1, min1, level)
  }

  lemma {:induction false} LeftSame(cs: seq<Column>, cs': seq<Column>, gs: seq<Group>, min1: nat, level: nat)
    requires min1 < level && GroupsOk(gs, |cs|) && |cs'| == |cs|
    requires forall j, k :: 0 <= k < |gs| && gs[k].start <= j <= gs[k].end && j < |cs| ==> cs'[j] == cs[j]
    ensures Left(cs', gs, min1, level) == Left(cs, gs, min1, level)
  {
    if gs != [] {
      NarrowSame(cs, cs', gs[0].start, gs[0].end + 1, min1);
      LeftSame(cs, cs', gs[1..], min1, level);
    }
  }

  lemma ChangedSame(cs: seq<Column>, cs1: seq<Column>, cs': seq<Column>, cs2: seq<Column>, q: nat, i: nat, j: nat,
      min1: nat, level: nat)
    requires i <= j <= |cs| && min1 < level && |cs1| == |cs2| == |cs|
    requires Changed(cs1, cs', q, i, j, min1, level)
    requires forall x :: i <= x < j ==> cs1[x] == cs[x] && cs2[x] == cs'[x]
    ensures Changed(cs, cs2, q, i, j, min1, level)
  {
    NarrowSame(cs, cs1, i, j, min1);
  }

  // The first group has no columns of the others.
  lemma FirstApart(gs: seq<Group>, n: nat)
    requires gs != [] && GroupsOk(gs, n) && Separate(gs)
    ensures GroupsOk(gs[1..], n) && Separate(gs[1..])
    ensures forall k, j {:trigger gs[1..][k], Outside(gs[0], j)} ::
              0 <= k < |gs| - 1 && gs[1..][k].start <= j <= gs[1..][k].end ==> Outside(gs[0], j)
    ensures forall j: nat :: !Outside(gs[0], j) ==> OutsideAll(gs[1..], j)
    ensures forall j: nat :: OutsideAll(gs, j) <==> Outside(gs[0], j) && OutsideAll(gs[1..], j)
  {
    var rest := gs[1..];
    assert forall k :: 0 <= k < |rest| ==> rest[k] == gs[k + 1];
    forall j: nat | Outside(gs[0], j) && OutsideAll(rest, j)
      ensures OutsideAll(gs, j)
    {
      assert forall k :: 1 <= k < |gs| ==> gs[k] == rest[k - 1];
    }
  }

  lemma {:induction false} PassEffect(cs: seq<Column>, gs: seq<Group>, min1: nat, level: nat)
    requires min1 < level && GroupsOk(gs, |cs|) && Separate(gs)
    ensures
      var (cs', gs') := PassOn(cs, gs, min1, level);
      Passed(cs, gs, cs', gs', min1, level)
    decreases |gs|
  {
    hide Changed, Passed, Separate, OutsideAll, Narrow, GroupOn, PassOn, GroupsOk;
    if gs == [] {
      PassNone(cs, min1, level);
    } else {
      GroupAt(gs, |cs|);
      var g, rest := gs[0], gs[1..];
      var (cs1, left) := GroupOn(cs, g.wanted, g.start, g.end + 1, min1, level);
      GroupEffect(cs, g.wanted, g.start, g.end + 1, min1, level);
      FirstApart(gs, |cs|);
      PassEffect(cs1, rest, min1, level);
      var (cs2, gs2) := PassOn(cs1, rest, min1, level);
      PassJoin(cs, gs, cs1, cs2, gs2, min1, level);
      PassStep(cs, gs, min1, level);
    }
  }

  lemma GroupAt(gs: seq<Group>, n: nat)
    requires GroupsOk(gs, n)
    ensures forall k :: 0 <= k < |gs| ==> gs[k].start <= gs[k].end < n && gs[k].wanted > 0
  {
  }

  lemma PassNone(cs: seq<Column>, min1: nat, level: nat)
    requires min1 < level
    ensures PassOn(cs, [], min1, level) == (cs, []) && Passed(cs, [], cs, [], min1, level)
  {
  }

  lemma PassStep(cs: seq<Column>, gs: seq<Group>, min1: nat, level: nat)
    requires min1 < level && gs != [] && forall k :: 0 <= k < |gs| ==> gs[k].start <= gs[k].end < |cs|
    ensures
      var g := gs[0];
      var (cs1, left) := GroupOn(cs, g.wanted, g.start, g.end + 1, min1, level);
      var (cs2, rest) := PassOn(cs1, gs[1..], min1, level);
      PassOn(cs, gs, min1, level) == (cs2, (if left == 0 then [] else [g.(wanted := left)]) + rest)
  {
    hide GroupOn;
  }

  lemma PassJoin(cs: seq<Column>, gs: seq<Group>, cs1: seq<Column>, cs2: seq<Column>, gs2: seq<Group>, min1: nat,
      level: nat)
    requires gs != [] && min1 < level && GroupsOk(gs, |cs|) && Separate(gs) && GroupsOk(gs[1..], |cs1|)
    requires
      var g := gs[0];
      && |cs1| == |cs| && Changed(cs, cs1, g.wanted, g.start, g.end + 1, min1, level)
      && forall x :: 0 <= x < |cs| && !(g.start <= x < g.end + 1) ==> cs1[x] == cs[x]
    requires Passed(cs1, gs[1..], cs2, gs2, min1, level)
    ensures
      var g := gs[0];
      var used := Narrow(cs, g.start, g.end + 1, min1) * (level - min1);
      var first := if g.wanted > used then [g.(wanted := g.wanted - used)] else [];
      Passed(cs, gs, cs2, first + gs2, min1, level)
  {
    hide Changed, Separate, OutsideAll, Narrow;
    var g, rest := gs[0], gs[1..];
    FirstApart(gs, |cs|);
    LeftSame(cs, cs1, rest, min1, level);
    ChangedSame(cs, cs, cs1, cs2, g.wanted, g.start, g.end + 1, min1, level);
    forall k | 0 <= k < |gs|
      ensures Changed(cs, cs2, gs[k].wanted, gs[k].start, gs[k].end + 1, min1, level)
    {
      if k > 0 {
        var h := rest[k - 1];
        assert h == gs[k];
        forall x | h.start <= x < h.end + 1
          ensures cs1[x] == cs[x]
        {
          assert Outside(gs[0], x);
        }
        ChangedSame(cs, cs1, cs2, cs2, h.wanted, h.start, h.end + 1, min1, level);
      }
    }
  }

  /*** levels ********************************************************************/

  // What it takes to make columns i to j - 1 at least h wide.
  function Lift(cs: seq<Column>, i: nat, j: nat, h: nat): nat
    requires i <= j <= |cs|
  {
    if i == j then 0 else Lift(cs, i, j - 1, h) + if cs[j - 1].width < h then h - cs[j - 1].width else 0
  }

  function LiftIn(cs: seq<Column>, g: Group, h: nat): nat
    requires g.start <= g.end < |cs|
  {
    Lift(cs, g.start, g.end + 1, h)
  }

  // Making all columns of the group h wide is just enough for it.
  predicate FillsAt(cs: seq<Column>, g: Group, h: nat)
    requires g.start <= g.end < |cs|
  {
    h > 0 && LiftIn(cs, g, h - 1) < g.wanted <= LiftIn(cs, g, h)
  }

  // And then nothing is left.
  predicate FillsExactly(cs: seq<Column>, g: Group, h: nat)
    requires g.start <= g.end < |cs|
  {
    FillsAt(cs, g, h) && g.wanted == LiftIn(cs, g, h)
  }

  // No column is in between the widths x and y, none outside of all groups is
  // narrower than x, and each group gets all it wants at the width y, or
  // exactly all it wants at the width x.
  ghost predicate Reaches(cs: seq<Column>, gs: seq<Group>, x: nat, y: nat)
    requires GroupsOk(gs, |cs|)
  {
    && x <= y
    && (forall j :: 0 <= j < |cs| ==> cs[j].width <= x || y <= cs[j].width)
    && (forall j :: 0 <= j < |cs| && OutsideAll(gs, j) ==> x <= cs[j].width)
    && (forall k :: 0 <= k < |gs| ==> FillsAt(cs, gs[k], y) || FillsExactly(cs, gs[k], x))
  }

  ghost predicate Levels(cs: seq<Column>, gs: seq<Group>)
    requires GroupsOk(gs, |cs|)
  {
    exists x: nat, y: nat :: Reaches(cs, gs, x, y)
  }

  lemma {:induction false} LiftMonotone(cs: seq<Column>, i: nat, j: nat, h: nat, h': nat)
    requires i <= j <= |cs| && h <= h'
    ensures Lift(cs, i, j, h) <= Lift(cs, i, j, h')
  {
    if i < j {
      LiftMonotone(cs, i, j - 1, h, h');
    }
  }

  lemma {:induction false} LiftUnder(cs: seq<Column>, i: nat, j: nat, h: nat)
    requires i <= j <= |cs| && forall x :: i <= x < j ==> h <= cs[x].width
    ensures Lift(cs, i, j, h) == 0
  {
    if i < j {
      LiftUnder(cs, i, j - 1, h);
    }
  }

  // Only the narrowest columns are below h.
  lemma {:induction false} LiftNarrow(cs: seq<Column>, i: nat, j: nat, min1: nat, h: nat)
    requires i <= j <= |cs| && min1 <= h && forall x :: i <= x < j ==> cs[x].width == min1 || h <= cs[x].width
    ensures Lift(cs, i, j, h) == Narrow(cs, i, j, min1) * (h - min1)
  {
    if i < j {
      LiftNarrow(cs, i, j - 1, min1, h);
      var n, d := Narrow(cs, i, j - 1, min1), h - min1;
      assert (n + 1) * d == n * d + d;
    }
  }

  // The narrowest columns have been made level wide.
  lemma {:induction false} LiftRaised(cs: seq<Column>, cs': seq<Column>, i: nat, j: nat, min1: nat, level: nat, h: nat)
    requires i <= j <= |cs| == |cs'| && min1 < level <= h
    requires forall x :: i <= x < j ==> cs'[x].width == if cs[x].width == min1 then level else cs[x].width
    ensures Lift(cs, i, j, h) == Lift(cs', i, j, h) + Narrow(cs, i, j, min1) * (level - min1)
  {
    if i < j {
      LiftRaised(cs, cs', i, j - 1, min1, level, h);
      var n, d := Narrow(cs, i, j - 1, min1), level - min1;
      assert (n + 1) * d == n * d + d;
    }
  }

  lemma FillsOnce(cs: seq<Column>, g: Group, h: nat, h': nat)
    requires g.start <= g.end < |cs| && FillsAt(cs, g, h) && FillsAt(cs, g, h')
    ensures h == h'
  {
    hide Lift;
    if h < h' {
      LiftMonotone(cs, g.start, g.end + 1, h, h' - 1);
    } else if h' < h {
      LiftMonotone(cs, g.start, g.end + 1, h', h - 1);
    }
  }

  // A group fills above its narrowest column.
  lemma FillsAbove(cs: seq<Column>, g: Group, h: nat)
    requires g.start <= g.end < |cs| && FillsAt(cs, g, h)
    ensures exists x :: g.start <= x <= g.end && cs[x].width < h
  {
    if forall x :: g.start <= x <= g.end ==> h <= cs[x].width {
      LiftUnder(cs, g.start, g.end + 1, h);
    }
  }

  // What is enough for a group is not more than it needs.
  lemma EnoughNeeded(g: Group, cs: seq<Column>, min1: nat, min2: nat, level: nat)
    requires g.start <= g.end < |cs| && g.wanted > 0 && min1 < level <= min2 && level <= Enough(g, cs, min1, min2)
    ensures Narrow(cs, g.start, g.end + 1, min1) * (level - 1 - min1) < g.wanted
    ensures level == Enough(g, cs, min1, min2) < min2 ==>
              g.wanted <= Narrow(cs, g.start, g.end + 1, min1) * (level - min1)
  {
    hide Narrow;
    var n, d := Narrow(cs, g.start, g.end + 1, min1), level - 1 - min1;
    if n > 0 {
      var q := (g.wanted - 1) / n;
      assert g.wanted - 1 == n * q + (g.wanted - 1) % n;
      assert n * (q + 1) == n * q + n;
      assert d <= q;
      assert n * d <= n * q;
    }
  }

  /*** what a pass keeps **********************************************************/

  ghost predicate OnePass(cs: seq<Column>, gs: seq<Group>, cs': seq<Column>, gs': seq<Group>, min1: nat, min2: nat,
      level: nat) {
    && GroupsOk(gs, |cs|) && Separate(gs) && TwoLeast(cs, min1, min2) && LevelFor(cs, gs, min1, min2, level)
    && Passed(cs, gs, cs', gs', min1, level)
  }

  // What a pass can give to a group.
  function Given(cs: seq<Column>, g: Group, min1: nat, level: nat): nat
    requires g.start <= g.end < |cs| && min1 < level
  {
    Narrow(cs, g.start, g.end + 1, min1) * (level - min1)
  }

  function After(cs: seq<Column>, g: Group, min1: nat, level: nat): Group
    requires g.start <= g.end < |cs| && min1 < level && g.wanted > Given(cs, g, min1, level)
  {
    g.(wanted := g.wanted - Given(cs, g, min1, level))
  }

  // Each group that is left is what has become of some group.
  lemma {:induction false} LeftFrom(cs: seq<Column>, gs: seq<Group>, min1: nat, level: nat, m: nat) returns (k: nat)
    requires min1 < level && GroupsOk(gs, |cs|) && m < |Left(cs, gs, min1, level)|
    ensures k < |gs| && gs[k].wanted > Given(cs, gs[k], min1, level)
    ensures Left(cs, gs, min1, level)[m] == After(cs, gs[k], min1, level)
    decreases |gs|
  {
    hide Narrow;
    var first := if gs[0].wanted > Given(cs, gs[0], min1, level) then 1 else 0;
    if m < first {
      k := 0;
    } else {
      var l := LeftFrom(cs, gs[1..], min1, level, m - first);
      k := l + 1;
    }
  }

  // Each group that wants more is left.
  lemma {:induction false} LeftHas(cs: seq<Column>, gs: seq<Group>, min1: nat, level: nat, k: nat) returns (m: nat)
    requires min1 < level && GroupsOk(gs, |cs|) && k < |gs| && gs[k].wanted > Given(cs, gs[k], min1, level)
    ensures m < |Left(cs, gs, min1, level)| && Left(cs, gs, min1, level)[m] == After(cs, gs[k], min1, level)
    decreases |gs|
  {
    hide Narrow;
    if k == 0 {
      m := 0;
    } else {
      var l := LeftHas(cs, gs[1..], min1, level, k - 1);
      m := if gs[0].wanted > Given(cs, gs[0], min1, level) then l + 1 else l;
    }
  }

  lemma {:induction false} LeftOk(cs: seq<Column>, gs: seq<Group>, min1: nat, level: nat)
    requires min1 < level && GroupsOk(gs, |cs|) && Separate(gs)
    ensures GroupsOk(Left(cs, gs, min1, level), |cs|) && Separate(Left(cs, gs, min1, level))
    decreases |gs|
  {
    hide Given, Separate, GroupsOk, Narrow, Left;
    if gs == [] {
      LeftNone(cs, min1, level);
    } else {
      GroupAt(gs, |cs|);
      FirstApart(gs, |cs|);
      var g, rest := gs[0], Left(cs, gs[1..], min1, level);
      LeftOk(cs, gs[1..], min1, level);
      forall m | 0 <= m < |rest|
        ensures rest[m].end < g.start || g.end < rest[m].start
      {
        var k := LeftFrom(cs, gs[1..], min1, level, m);
        FirstBeside(gs, |cs|, k);
      }
      LeftStep(cs, gs, min1, level);
      if g.wanted > Given(cs, g, min1, level) {
        OneMoreGroup(After(cs, g, min1, level), rest, |cs|);
      }
    }
  }

  lemma LeftNone(cs: seq<Column>, min1: nat, level: nat)
    requires min1 < level
    ensures Left(cs, [], min1, level) == [] && GroupsOk([], |cs|) && Separate([])
  {
  }

  lemma LeftStep(cs: seq<Column>, gs: seq<Group>, min1: nat, level: nat)
    requires min1 < level && gs != [] && GroupsOk(gs, |cs|) && GroupsOk(gs[1..], |cs|)
    ensures
      var rest := Left(cs, gs[1..], min1, level);
      Left(cs, gs, min1, level)
      == if gs[0].wanted > Given(cs, gs[0], min1, level) then [After(cs, gs[0], min1, level)] + rest else rest
  {
    hide Narrow;
  }

  lemma GivenIs(cs: seq<Column>, g: Group, min1: nat, level: nat)
    requires g.start <= g.end < |cs| && min1 < level
    ensures Given(cs, g, min1, level) == Narrow(cs, g.start, g.end + 1, min1) * (level - min1)
  {
  }

  lemma FirstBeside(gs: seq<Group>, n: nat, k: nat)
    requires GroupsOk(gs, n) && Separate(gs) && k + 1 < |gs|
    ensures gs[1..][k].end < gs[0].start || gs[0].end < gs[1..][k].start
  {
  }

  lemma OneMoreGroup(g: Group, gs: seq<Group>, n: nat)
    requires GroupsOk(gs, n) && Separate(gs) && g.start <= g.end < n && g.wanted > 0
    requires forall m :: 0 <= m < |gs| ==> gs[m].end < g.start || g.end < gs[m].start
    ensures GroupsOk([g] + gs, n) && Separate([g] + gs)
  {
  }

  // A group that gets all it wants fills at the new width.
  lemma FillsNow(cs: seq<Column>, gs: seq<Group>, min1: nat, min2: nat, level: nat, k: nat)
    requires GroupsOk(gs, |cs|) && TwoLeast(cs, min1, min2) && LevelFor(cs, gs, min1, min2, level) && k < |gs|
    ensures gs[k].wanted <= Given(cs, gs[k], min1, level) <==> FillsAt(cs, gs[k], level)
    ensures gs[k].wanted == Given(cs, gs[k], min1, level) <==> FillsExactly(cs, gs[k], level)
    ensures forall h: nat :: FillsAt(cs, gs[k], h) ==> h >= level
  {
    hide Narrow, Lift, Enough;
    var g := gs[k];
    EnoughNeeded(g, cs, min1, min2, level);
    LiftNarrow(cs, g.start, g.end + 1, min1, level);
    LiftNarrow(cs, g.start, g.end + 1, min1, level - 1);
    forall h: nat | FillsAt(cs, g, h)
      ensures h >= level
    {
      if h < level {
        LiftMonotone(cs, g.start, g.end + 1, h, level - 1);
      }
    }
  }

  // For a group that is left, nothing changes above the new width.
  lemma FillsLater(cs: seq<Column>, cs': seq<Column>, g: Group, min1: nat, level: nat, h: nat)
    requires g.start <= g.end < |cs| && min1 < level && g.wanted > Given(cs, g, min1, level)
    requires Changed(cs, cs', g.wanted, g.start, g.end + 1, min1, level)
    requires forall x :: g.start <= x <= g.end ==> cs[x].width == min1 || level <= cs[x].width
    ensures
      var left := g.(wanted := g.wanted - Given(cs, g, min1, level));
      && (FillsAt(cs', left, h) <==> FillsAt(cs, g, h)) && (FillsExactly(cs', left, h) <==> FillsExactly(cs, g, h))
      && (FillsAt(cs', left, h) ==> h > level)
  {
    hide Narrow, Lift;
    var s, e := g.start, g.end + 1;
    LiftNarrow(cs, s, e, min1, level);
    LiftUnder(cs', s, e, level);
    if h > level {
      LiftRaised(cs, cs', s, e, min1, level, h);
      LiftRaised(cs, cs', s, e, min1, level, h - 1);
    } else {
      LiftMonotone(cs, s, e, h, level);
      LiftMonotone(cs', s, e, h, level);
    }
  }

  // What the columns are like after a pass.
  lemma PassedColumns(cs: seq<Column>, gs: seq<Group>, cs': seq<Column>, gs': seq<Group>, min1: nat, min2: nat,
      level: nat, j: nat)
    requires OnePass(cs, gs, cs', gs', min1, min2, level) && j < |cs|
    ensures |cs'| == |cs| && min1 <= cs[j].width && (cs[j].width == min1 || level <= cs[j].width)
    ensures cs'[j] == cs[j] || (cs[j].width == min1 && min1 <= cs'[j].width <= level)
    ensures OutsideAll(gs, j) ==> cs'[j] == cs[j]
  {
    hide Narrow, LevelFor;
    assert min1 < level <= min2 by {
      LevelBetween(cs, gs, min1, min2, level);
    }
    if !OutsideAll(gs, j) {
      var k :| 0 <= k < |gs| && !Outside(gs[k], j);
      assert Changed(cs, cs', gs[k].wanted, gs[k].start, gs[k].end + 1, min1, level);
    }
  }

  lemma LevelBetween(cs: seq<Column>, gs: seq<Group>, min1: nat, min2: nat, level: nat)
    requires GroupsOk(gs, |cs|) && LevelFor(cs, gs, min1, min2, level)
    ensures min1 < level <= min2
  {
  }

  // If all groups fill at level y only, with no width between x and y, then a
  // pass does not leave any of them, or stops below y.
  lemma NotBeyond(cs: seq<Column>, gs: seq<Group>, min1: nat, min2: nat, level: nat, x: nat, y: nat)
    requires GroupsOk(gs, |cs|) && TwoLeast(cs, min1, min2) && LevelFor(cs, gs, min1, min2, level)
    requires Touches(gs, cs, min1) && Reaches(cs, gs, x, y) && level < y < SIZE_MAX
    ensures x >= level
  {
    hide Enough, Lift, OutsideAll;
    var k0, i :| 0 <= k0 < |gs| && gs[k0].start <= i <= gs[k0].end && i < |cs| && cs[i].width == min1;
    if x < level {
      assert cs[i].width <= x;
      if level == min2 {
        WidthBetween(cs, gs, x, y, min2);
      } else {
        var k :| 0 <= k < |gs| && level == Enough(gs[k], cs, min1, min2);
        EnoughFills(cs, gs, min1, min2, level, k);
        FillsNow(cs, gs, min1, min2, level, k);
        if FillsAt(cs, gs[k], y) {
          FillsOnce(cs, gs[k], level, y);
        } else {
          FillsOnce(cs, gs[k], level, x);
        }
      }
    }
  }

  lemma WidthBetween(cs: seq<Column>, gs: seq<Group>, x: nat, y: nat, width: nat)
    requires GroupsOk(gs, |cs|) && Reaches(cs, gs, x, y) && exists j :: 0 <= j < |cs| && cs[j].width == width
    ensures width <= x || y <= width
  {
  }

  lemma EnoughFills(cs: seq<Column>, gs: seq<Group>, min1: nat, min2: nat, level: nat, k: nat)
    requires GroupsOk(gs, |cs|) && TwoLeast(cs, min1, min2) && LevelFor(cs, gs, min1, min2, level) && k < |gs|
    requires level == Enough(gs[k], cs, min1, min2) < min2
    ensures FillsAt(cs, gs[k], level)
  {
    hide Enough, Lift, Narrow;
    EnoughNeeded(gs[k], cs, min1, min2, level);
    FillsNow(cs, gs, min1, min2, level, k);
  }

  // The levels that were there before a pass are still there.
  lemma LevelsStay(cs: seq<Column>, gs: seq<Group>, cs': seq<Column>, gs': seq<Group>, min1: nat, min2: nat, level: nat,
      x: nat, y: nat)
    requires OnePass(cs, gs, cs', gs', min1, min2, level) && Touches(gs, cs, min1)
    requires Reaches(cs, gs, x, y) && y < SIZE_MAX && gs' != [] && GroupsOk(gs', |cs'|)
    ensures Reaches(cs', gs', x, y)
  {
    hide Enough, Lift, Narrow, Left, Touches, OutsideAll, LevelFor, TwoLeast;
    LevelBetween(cs, gs, min1, min2, level);
    var k0 := LeftFrom(cs, gs, min1, level, 0);
    Later(cs, gs, cs', gs', min1, min2, level, k0);
    assert y > level;
    NotBeyond(cs, gs, min1, min2, level, x, y);
    forall m | 0 <= m < |gs'|
      ensures FillsAt(cs', gs'[m], y) || FillsExactly(cs', gs'[m], x)
    {
      var k := LeftFrom(cs, gs, min1, level, m);
      Later(cs, gs, cs', gs', min1, min2, level, k);
    }
    forall j | 0 <= j < |cs'|
      ensures cs'[j].width <= x || y <= cs'[j].width
      ensures OutsideAll(gs', j) ==> x <= cs'[j].width
    {
      PassedColumns(cs, gs, cs', gs', min1, min2, level, j);
      if OutsideAll(gs', j) && !OutsideAll(gs, j) {
        GoneWide(cs, gs, cs', gs', min1, min2, level, x, y, j);
      }
    }
  }

  // A column of a group that has just got all it wanted.
  lemma GoneWide(cs: seq<Column>, gs: seq<Group>, cs': seq<Column>, gs': seq<Group>, min1: nat, min2: nat, level: nat,
      x: nat, y: nat, j: nat)
    requires OnePass(cs, gs, cs', gs', min1, min2, level) && Reaches(cs, gs, x, y) && level < y && level <= x
    requires j < |cs| && OutsideAll(gs', j) && !OutsideAll(gs, j)
    ensures j < |cs'| && x <= cs'[j].width
  {
    hide Enough, Lift, Narrow, Left, LevelFor, TwoLeast;
    LevelBetween(cs, gs, min1, min2, level);
    var k :| 0 <= k < |gs| && !Outside(gs[k], j);
    var g := gs[k];
    if g.wanted > Given(cs, g, min1, level) {
      var m := LeftHas(cs, gs, min1, level, k);
      assert false;
    } else {
      FillsNow(cs, gs, min1, min2, level, k);
      if FillsAt(cs, g, y) {
        FillsOnce(cs, g, level, y);
        assert false;
      } else {
        FillsOnce(cs, g, level, x);
        assert x == level;
        assert Changed(cs, cs', g.wanted, g.start, g.end + 1, min1, level);
        PassedColumns(cs, gs, cs', gs', min1, min2, level, j);
        GivenIs(cs, g, min1, level);
      }
    }
  }

  // What FillsLater() says about group k.
  lemma Later(cs: seq<Column>, gs: seq<Group>, cs': seq<Column>, gs': seq<Group>, min1: nat, min2: nat, level: nat,
      k: nat)
    requires OnePass(cs, gs, cs', gs', min1, min2, level) && k < |gs| && gs[k].wanted > Given(cs, gs[k], min1, level)
    ensures |cs'| == |cs|
    ensures forall h: nat ::
              && (FillsAt(cs', After(cs, gs[k], min1, level), h) <==> FillsAt(cs, gs[k], h))
              && (FillsExactly(cs', After(cs, gs[k], min1, level), h) <==> FillsExactly(cs, gs[k], h))
    ensures forall h: nat :: FillsAt(cs', After(cs, gs[k], min1, level), h) ==> h > level
  {
    hide Enough, Lift, Narrow, Left, LevelFor;
    LevelBetween(cs, gs, min1, min2, level);
    var g := gs[k];
    assert Changed(cs, cs', g.wanted, g.start, g.end + 1, min1, level);
    forall h: nat
      ensures FillsAt(cs', After(cs, g, min1, level), h) <==> FillsAt(cs, g, h)
      ensures FillsExactly(cs', After(cs, g, min1, level), h) <==> FillsExactly(cs, g, h)
      ensures FillsAt(cs', After(cs, g, min1, level), h) ==> h > level
    {
      FillsLater(cs, cs', g, min1, level, h);
    }
  }

  // The levels that are there after a pass have been there before.
  lemma LevelsWere(cs: seq<Column>, gs: seq<Group>, cs': seq<Column>, gs': seq<Group>, min1: nat, min2: nat, level: nat,
      x: nat, y: nat)
    requires OnePass(cs, gs, cs', gs', min1, min2, level) && gs' != [] && GroupsOk(gs', |cs'|)
    requires Reaches(cs', gs', x, y)
    ensures Reaches(cs, gs, x, y)
  {
    hide Enough, Lift, Narrow, Left, OutsideAll, LevelFor, TwoLeast;
    LevelBetween(cs, gs, min1, min2, level);
    NotBelow(cs, gs, cs', gs', min1, min2, level, x, y);
    forall k | 0 <= k < |gs|
      ensures FillsAt(cs, gs[k], y) || FillsExactly(cs, gs[k], x)
    {
      if gs[k].wanted > Given(cs, gs[k], min1, level) {
        var m := LeftHas(cs, gs, min1, level, k);
        assert FillsAt(cs', gs'[m], y) || FillsExactly(cs', gs'[m], x);
        Later(cs, gs, cs', gs', min1, min2, level, k);
      } else {
        GoneExactly(cs, gs, cs', gs', min1, min2, level, x, y, k);
      }
    }
    forall j | 0 <= j < |cs|
      ensures cs[j].width <= x || y <= cs[j].width
      ensures OutsideAll(gs, j) ==> x <= cs[j].width
    {
      PassedColumns(cs, gs, cs', gs', min1, min2, level, j);
      if OutsideAll(gs, j) {
        StillOutside(cs, gs, min1, level, j);
      }
    }
  }

  lemma StillOutside(cs: seq<Column>, gs: seq<Group>, min1: nat, level: nat, j: nat)
    requires min1 < level && GroupsOk(gs, |cs|) && OutsideAll(gs, j)
    ensures OutsideAll(Left(cs, gs, min1, level), j)
  {
    hide Left, Given;
    forall m | 0 <= m < |Left(cs, gs, min1, level)|
      ensures Outside(Left(cs, gs, min1, level)[m], j)
    {
      var k := LeftFrom(cs, gs, min1, level, m);
      assert Outside(gs[k], j);
    }
  }

  lemma NotBelow(cs: seq<Column>, gs: seq<Group>, cs': seq<Column>, gs': seq<Group>, min1: nat, min2: nat, level: nat,
      x: nat, y: nat)
    requires OnePass(cs, gs, cs', gs', min1, min2, level) && gs' != [] && GroupsOk(gs', |cs'|)
    requires Reaches(cs', gs', x, y)
    ensures level <= x && level < y
  {
    hide Enough, Lift, Narrow, Left, OutsideAll, LevelFor;
    LevelBetween(cs, gs, min1, min2, level);
    var k := LeftFrom(cs, gs, min1, level, 0);
    Later(cs, gs, cs', gs', min1, min2, level, k);
    var g := gs'[0];
    var h := if FillsAt(cs', g, y) then y else x;
    assert h > level;
    FillsAbove(cs', g, h);
    var j :| g.start <= j <= g.end && cs'[j].width < h;
    WidthBetween(cs', gs', x, y, cs'[j].width);
    assert Changed(cs, cs', gs[k].wanted, gs[k].start, gs[k].end + 1, min1, level);
    assert cs'[j].width >= level;
  }

  // A group that has got all it wanted has got exactly that.
  lemma GoneExactly(cs: seq<Column>, gs: seq<Group>, cs': seq<Column>, gs': seq<Group>, min1: nat, min2: nat,
      level: nat, x: nat, y: nat, k: nat)
    requires OnePass(cs, gs, cs', gs', min1, min2, level) && GroupsOk(gs', |cs'|) && Reaches(cs', gs', x, y)
    requires level <= x && k < |gs| && gs[k].wanted <= Given(cs, gs[k], min1, level)
    ensures FillsExactly(cs, gs[k], x)
  {
    hide Enough, Lift, Left, LevelFor, Narrow, FillsExactly, OutsideAll;
    LevelBetween(cs, gs, min1, min2, level);
    var g := gs[k];
    FillsNow(cs, gs, min1, min2, level, k);
    GivenIs(cs, g, min1, level);
    assert Changed(cs, cs', g.wanted, g.start, g.end + 1, min1, level);
    forall j | g.start <= j <= g.end
      ensures x <= cs'[j].width
    {
      GoneOutside(cs, gs, min1, level, k, j);
    }
    hide Reaches, OnePass, Separate, GroupsOk;
    GivenSome(cs, g, min1, level);
    var j :| g.start <= j < g.end + 1 && cs[j].width == min1;
    assert x <= cs'[j].width <= level;
  }

  lemma GivenSome(cs: seq<Column>, g: Group, min1: nat, level: nat)
    requires g.start <= g.end < |cs| && min1 < level && 0 < g.wanted <= Given(cs, g, min1, level)
    ensures exists j :: g.start <= j < g.end + 1 && cs[j].width == min1
  {
    NarrowSome(cs, g.start, g.end + 1, min1);
    Times(Narrow(cs, g.start, g.end + 1, min1), level - min1);
  }

  lemma GoneOutside(cs: seq<Column>, gs: seq<Group>, min1: nat, level: nat, k: nat, j: nat)
    requires min1 < level && GroupsOk(gs, |cs|) && Separate(gs) && k < |gs|
    requires gs[k].wanted <= Given(cs, gs[k], min1, level) && gs[k].start <= j <= gs[k].end
    ensures OutsideAll(Left(cs, gs, min1, level), j)
  {
    hide Left, Given;
    forall m | 0 <= m < |Left(cs, gs, min1, level)|
      ensures Outside(Left(cs, gs, min1, level)[m], j)
    {
      var l := LeftFrom(cs, gs, min1, level, m);
      assert l != k;
    }
  }

  // When a pass gives all groups what they want, there are such levels.
  lemma LevelsEnd(cs: seq<Column>, gs: seq<Group>, cs': seq<Column>, min1: nat, min2: nat, level: nat)
    requires OnePass(cs, gs, cs', [], min1, min2, level)
    ensures Levels(cs, gs)
  {
    hide Enough, Lift, Narrow, Left, OutsideAll, LevelFor;
    LevelBetween(cs, gs, min1, min2, level);
    forall k | 0 <= k < |gs|
      ensures FillsAt(cs, gs[k], level)
    {
      FillsNow(cs, gs, min1, min2, level, k);
      if gs[k].wanted > Given(cs, gs[k], min1, level) {
        var m := LeftHas(cs, gs, min1, level, k);
        assert false;
      }
    }
    assert Reaches(cs, gs, min1, level);
  }

  // With such levels, some group has a narrowest column.
  lemma LevelsTouch(cs: seq<Column>, gs: seq<Group>, min1: nat, x: nat, y: nat)
    requires GroupsOk(gs, |cs|) && gs != [] && Smallest(cs, min1) && Reaches(cs, gs, x, y)
    ensures Touches(gs, cs, min1)
  {
    hide Lift, OutsideAll, Touches;
    var i :| 0 <= i < |cs| && cs[i].width == min1;
    if OutsideAll(gs, i) {
      var g := gs[0];
      FillsAbove(cs, g, if FillsAt(cs, g, y) then y else x);
      var j :| g.start <= j <= g.end && cs[j].width < if FillsAt(cs, g, y) then y else x;
      assert cs[j].width == min1;
      ShowTouches(gs, cs, 0, j, min1);
    } else {
      InSome(gs, i);
      var k :| 0 <= k < |gs| && !Outside(gs[k], i);
      ShowTouches(gs, cs, k, i, min1);
    }
  }

  lemma InSome(gs: seq<Group>, i: nat)
    requires !OutsideAll(gs, i)
    ensures exists k :: 0 <= k < |gs| && !Outside(gs[k], i)
  {
  }

  lemma ShowTouches(gs: seq<Group>, cs: seq<Column>, k: nat, i: nat, width: nat)
    requires k < |gs| && gs[k].start <= i <= gs[k].end && i < |cs| && cs[i].width == width
    ensures Touches(gs, cs, width)
  {
  }

  // There are none if no group has a narrowest column.
  lemma NoLevels(cs: seq<Column>, gs: seq<Group>, min1: nat)
    requires GroupsOk(gs, |cs|) && gs != [] && Smallest(cs, min1) && !Touches(gs, cs, min1)
    ensures !Levels(cs, gs)
  {
    hide Touches, Reaches, Smallest;
    forall x: nat, y: nat | Reaches(cs, gs, x, y)
      ensures false
    {
      LevelsTouch(cs, gs, min1, x, y);
    }
  }

  lemma {:induction false} LiftAtLeast(cs: seq<Column>, i: nat, j: nat, h: nat)
    requires i < j <= |cs|
    ensures Lift(cs, i, j, h) >= h - cs[i].width
  {
    if i < j - 1 {
      LiftAtLeast(cs, i, j - 1, h);
    }
  }

  // No width gets too large for a size_t.
  ghost predicate Bounded(cs: seq<Column>, gs: seq<Group>) {
    forall j, k :: 0 <= j < |cs| && 0 <= k < |gs| ==> cs[j].width + gs[k].wanted < SIZE_MAX
  }

  lemma BoundedLevels(cs: seq<Column>, gs: seq<Group>, x: nat, y: nat) returns (y': nat)
    requires GroupsOk(gs, |cs|) && gs != [] && Bounded(cs, gs) && Reaches(cs, gs, x, y)
    ensures y' < SIZE_MAX && Reaches(cs, gs, x, y')
  {
    hide Lift, OutsideAll;
    if y < SIZE_MAX {
      y' := y;
    } else {
      y' := x;
      forall k | 0 <= k < |gs|
        ensures FillsExactly(cs, gs[k], x) && x < SIZE_MAX
      {
        var g := gs[k];
        assert cs[g.start].width + g.wanted < SIZE_MAX;
        var h := if FillsAt(cs, g, y) then y else x;
        LiftAtLeast(cs, g.start, g.end + 1, h - 1);
      }
      assert x < SIZE_MAX by {
        assert FillsExactly(cs, gs[0], x);
      }
    }
  }

  // A pass over separate groups does not change whether there are levels.
  lemma LevelsKept(cs: seq<Column>, gs: seq<Group>, cs': seq<Column>, gs': seq<Group>, min1: nat, min2: nat, level: nat)
    requires OnePass(cs, gs, cs', gs', min1, min2, level) && Touches(gs, cs, min1) && gs != [] && Bounded(cs, gs)
    ensures GroupsOk(gs', |cs'|) && Separate(gs')
    ensures Levels(cs, gs) <==> gs' == [] || Levels(cs', gs')
  {
    hide Touches, Reaches, LevelFor, TwoLeast, Left;
    LevelBetween(cs, gs, min1, min2, level);
    LeftOk(cs, gs, min1, level);
    if gs' == [] {
      LevelsEnd(cs, gs, cs', min1, min2, level);
    } else {
      if Levels(cs, gs) {
        var x: nat, y: nat :| Reaches(cs, gs, x, y);
        var y' := BoundedLevels(cs, gs, x, y);
        LevelsStay(cs, gs, cs', gs', min1, min2, level, x, y');
      }
      if Levels(cs', gs') {
        var x: nat, y: nat :| Reaches(cs', gs', x, y);
        LevelsWere(cs, gs, cs', gs', min1, min2, level, x, y);
      }
    }
  }

  // For example, two spans over two columns of width 1 each, one of them
  // wanting 3 more, and the other one, 10.
  lemma TwoSpansExample()
    ensures
      var k := Column(1, 3, false, false);
      var cs, gs := [k, k, k, k], [Group(0, 1, 3), Group(2, 3, 10)];
      GroupsOk(gs, |cs|) && Separate(gs) && !Levels(cs, gs)
  {
    var k := Column(1, 3, false, false);
    var cs, g, h := [k, k, k, k], Group(0, 1, 3), Group(2, 3, 10);
    var gs := [g, h];
    assert gs[0] == g && gs[1] == h;
    LiftPair(cs, 0, 2);
    LiftPair(cs, 0, 3);
    LiftPair(cs, 2, 5);
    LiftPair(cs, 2, 6);
    hide Lift;
    assert FillsAt(cs, g, 3) && !FillsExactly(cs, g, 3) && FillsAt(cs, h, 6);
    hide FillsAt, FillsExactly;
    forall x: nat, y: nat | Reaches(cs, gs, x, y)
      ensures false
    {
      EitherLevel(cs, gs, x, y, 0, 3);
      EitherLevel(cs, gs, x, y, 1, 6);
    }
  }

  // Two columns of width 1.
  lemma LiftPair(cs: seq<Column>, i: nat, h: nat)
    requires i + 2 <= |cs| && cs[i].width == cs[i + 1].width == 1 && h > 0
    ensures Lift(cs, i, i + 2, h) == 2 * (h - 1)
  {
    assert Lift(cs, i, i, h) == 0;
    assert Lift(cs, i, i + 1, h) == h - 1;
  }

  lemma EitherLevel(cs: seq<Column>, gs: seq<Group>, x: nat, y: nat, k: nat, h: nat)
    requires GroupsOk(gs, |cs|) && Reaches(cs, gs, x, y) && k < |gs| && FillsAt(cs, gs[k], h)
    ensures h == y || (h == x && FillsExactly(cs, gs[k], h))
    ensures x <= y
  {
    hide Lift, OutsideAll;
    if FillsAt(cs, gs[k], y) {
      FillsOnce(cs, gs[k], h, y);
    } else {
      FillsOnce(cs, gs[k], h, x);
    }
  }
}
