// The tree of boxes of an equation: struct eqn_box in userland/mandoc/eqn.h,
// eqn_box_new() and eqn_box_alloc() in userland/mandoc/eqn.c.
module EqnTree {
  import opened Options

  datatype Kind = Text | Subexpr | List | Pile | Matrix

  datatype Font = NoFont | Roman | Bold | Fat | Italic

  datatype Pos = NoPos | Sup | SubSup | Sub | To | From | FromTo | Over | Sqrt

  // The fields of a box that are not links. There may be any number of
  // arguments if expectargs is None, which is UINT_MAX in the source.
  datatype Info = Info(text: Option<string>, left: Option<string>, right: Option<string>,
                       top: Option<string>, bottom: Option<string>,
                       expectargs: Option<nat>, args: int, size: int, kind: Kind, font: Font, pos: Pos)

  // The links of a box.
  datatype Ptrs = Ptrs(parent: Box?, prev: Box?, next: Box?, first: Box?, last: Box?)

  const DEFSIZE: int := -0x8000_0000

  const NEWBOX: Info := Info(None, None, None, None, None, None, 0, 0, Text, NoFont, NoPos)

  // An operator as eqn_box_makebinary() makes it.
  function Binary(font: Font, size: int): Info {
    NEWBOX.(font := font, size := size, kind := Subexpr, expectargs := Some(2), args := 1)
  }

  class Box {
    var parent: Box?
    var prev: Box?
    var next: Box?
    var first: Box?
    var last: Box?
    var info: Info

    // eqn_box_new()
    constructor ()
      ensures info == NEWBOX && Links() == Ptrs(null, null, null, null, null)
    {
      parent, prev, next, first, last := null, null, null, null, null;
      info := NEWBOX;
    }

    function Links(): Ptrs
      reads this
    {
      Ptrs(parent, prev, next, first, last)
    }
  }

  /*** trees of boxes *********************************************************/

  datatype Tree = Node(box: Box, kids: seq<Tree>)

  ghost function Tops(ts: seq<Tree>): (s: seq<Box>)
    ensures |s| == |ts| && forall i :: 0 <= i < |s| ==> s[i] == ts[i].box
  {
    seq(|ts|, i requires 0 <= i < |ts| => ts[i].box)
  }

  // All the boxes below a list of trees.
  ghost function BoxesAll(ts: seq<Tree>): set<Box>
    decreases ts
  {
    if ts == [] then {} else BoxesAll(ts[..|ts| - 1]) + Boxes(ts[|ts| - 1])
  }

  ghost function Boxes(t: Tree): set<Box>
    decreases t
  {
    {t.box} + BoxesAll(t.kids)
  }

  // No box is in two places.
  ghost predicate ProperAll(ts: seq<Tree>)
    decreases ts
  {
    ts != [] ==>
      ProperAll(ts[..|ts| - 1]) && Proper(ts[|ts| - 1]) && BoxesAll(ts[..|ts| - 1]) !! Boxes(ts[|ts| - 1])
  }

  ghost predicate Proper(t: Tree)
    decreases t
  {
    t.box !in BoxesAll(t.kids) && ProperAll(t.kids)
  }

  // The tree with these lists of children.
  ghost predicate ShapesAll(ts: seq<Tree>, below: map<Box, seq<Box>>)
    decreases ts
  {
    ts != [] ==> ShapesAll(ts[..|ts| - 1], below) && Shapes(ts[|ts| - 1], below)
  }

  ghost predicate Shapes(t: Tree, below: map<Box, seq<Box>>)
    decreases t
  {
    t.box in below && below[t.box] == Tops(t.kids) && ShapesAll(t.kids, below)
  }

  datatype Leaf = Leaf(text: string, font: Font)

  // The text boxes from left to right.
  ghost function WordsAll(ts: seq<Tree>, words: map<Box, Leaf>): seq<Leaf>
    decreases ts
  {
    if ts == [] then [] else WordsAll(ts[..|ts| - 1], words) + Words(ts[|ts| - 1], words)
  }

  ghost function Words(t: Tree, words: map<Box, Leaf>): seq<Leaf>
    decreases t
  {
    (if t.box in words then [words[t.box]] else []) + WordsAll(t.kids, words)
  }

  /*** the rightmost spine *****************************************************/

  ghost predicate OnSpine(t: Tree, p: Box)
    decreases t
  {
    t.box == p || (t.kids != [] && OnSpine(t.kids[|t.kids| - 1], p))
  }

  // The boxes from the root to p.
  ghost function Chain(t: Tree, p: Box): (c: seq<Box>)
    requires OnSpine(t, p)
    ensures |c| > 0 && c[0] == t.box && c[|c| - 1] == p
    decreases t
  {
    if t.box == p then [p] else [t.box] + Chain(t.kids[|t.kids| - 1], p)
  }

  ghost function KidsAt(t: Tree, p: Box): seq<Tree>
    requires OnSpine(t, p)
    decreases t
  {
    if t.box == p then t.kids else KidsAt(t.kids[|t.kids| - 1], p)
  }

  // The tree with other children of p.
  ghost function Rebuilt(t: Tree, p: Box, ks: seq<Tree>): (r: Tree)
    requires OnSpine(t, p)
    ensures r.box == t.box
    decreases t
  {
    if t.box == p then Node(p, ks)
    else Node(t.box, t.kids[..|t.kids| - 1] + [Rebuilt(t.kids[|t.kids| - 1], p, ks)])
  }

  lemma LastOf<T>(ts: seq<T>, t: T)
    ensures (ts + [t])[..|ts + [t]| - 1] == ts
  {
  }

  lemma {:induction false} SpineInside(t: Tree, p: Box)
    requires OnSpine(t, p)
    ensures p in Boxes(t) && BoxesAll(KidsAt(t, p)) <= Boxes(t)
    decreases t
  {
    if t.box != p {
      SpineInside(t.kids[|t.kids| - 1], p);
    }
  }

  lemma {:induction false} KidsProper(t: Tree, p: Box)
    requires OnSpine(t, p) && Proper(t)
    ensures p !in BoxesAll(KidsAt(t, p)) && ProperAll(KidsAt(t, p))
    decreases t
  {
    if t.box != p {
      KidsProper(t.kids[|t.kids| - 1], p);
    }
  }

  // One more tree.
  lemma Snoc(ts: seq<Tree>, t: Tree, below: map<Box, seq<Box>>, words: map<Box, Leaf>)
    ensures BoxesAll(ts + [t]) == BoxesAll(ts) + Boxes(t)
    ensures ProperAll(ts + [t]) <==> ProperAll(ts) && Proper(t) && BoxesAll(ts) !! Boxes(t)
    ensures ShapesAll(ts + [t], below) <==> ShapesAll(ts, below) && Shapes(t, below)
    ensures WordsAll(ts + [t], words) == WordsAll(ts, words) + Words(t, words)
    ensures Tops(ts + [t]) == Tops(ts) + [t.box]
  {
    LastOf(ts, t);
  }

  // Boxes that are not below p stay where they are.
  lemma {:induction false} RebuiltProper(t: Tree, p: Box, ks: seq<Tree>)
    requires OnSpine(t, p) && Proper(t) && ProperAll(ks)
    requires BoxesAll(ks) !! Boxes(t) - BoxesAll(KidsAt(t, p))
    ensures Proper(Rebuilt(t, p, ks))
    ensures Boxes(Rebuilt(t, p, ks)) == Boxes(t) - BoxesAll(KidsAt(t, p)) + BoxesAll(ks)
    decreases t
  {
    if t.box != p {
      var n := |t.kids| - 1;
      var k := t.kids[n];
      SpineInside(k, p);
      RebuiltProper(k, p, ks);
      LastOf(t.kids[..n], Rebuilt(k, p, ks));
    }
  }

  lemma {:induction false} RebuiltSame(t: Tree, p: Box)
    requires OnSpine(t, p)
    ensures Rebuilt(t, p, KidsAt(t, p)) == t
    decreases t
  {
    if t.box != p {
      var n := |t.kids| - 1;
      RebuiltSame(t.kids[n], p);
      assert t.kids == t.kids[..n] + [t.kids[n]];
    }
  }

  lemma {:induction false} RebuiltSpine(t: Tree, p: Box, ks: seq<Tree>)
    requires OnSpine(t, p)
    ensures OnSpine(Rebuilt(t, p, ks), p)
    ensures Chain(Rebuilt(t, p, ks), p) == Chain(t, p) && KidsAt(Rebuilt(t, p, ks), p) == ks
    decreases t
  {
    if t.box != p {
      RebuiltSpine(t.kids[|t.kids| - 1], p, ks);
    }
  }

  // The last child of p is on the spine as well.
  lemma {:induction false} SpineDown(t: Tree, p: Box)
    requires OnSpine(t, p) && Proper(t) && KidsAt(t, p) != []
    ensures
      var k := KidsAt(t, p)[|KidsAt(t, p)| - 1];
      OnSpine(t, k.box) && Chain(t, k.box) == Chain(t, p) + [k.box] && KidsAt(t, k.box) == k.kids
    decreases t
  {
    var n := |t.kids| - 1;
    if t.box != p {
      SpineDown(t.kids[n], p);
      var k := KidsAt(t, p)[|KidsAt(t, p)| - 1];
      SpineInside(t.kids[n], k.box);
    }
  }

  // The box above p.
  lemma {:induction false} SpineUp(t: Tree, p: Box)
    requires OnSpine(t, p) && Proper(t) && p != t.box
    ensures
      var c := Chain(t, p);
      var q := c[|c| - 2];
      && |c| >= 2 && OnSpine(t, q) && Chain(t, q) == c[..|c| - 1]
      && KidsAt(t, q) != [] && KidsAt(t, q)[|KidsAt(t, q)| - 1].box == p
    decreases t
  {
    var n := |t.kids| - 1;
    if t.kids[n].box == p {
      assert Chain(t, p) == [t.box] + [p];
    } else {
      SpineUp(t.kids[n], p);
      var d := Chain(t.kids[n], p);
      var q := d[|d| - 2];
      assert Chain(t, p) == [t.box] + d;
      SpineInside(t.kids[n], q);
      assert ([t.box] + d)[..|d|] == [t.box] + d[..|d| - 1];
    }
  }

  lemma {:induction false} SameShape(t: Tree, below: map<Box, seq<Box>>, below': map<Box, seq<Box>>)
    requires Shapes(t, below)
    requires forall b :: b in Boxes(t) ==> b in below' && (b in below ==> below'[b] == below[b])
    ensures Shapes(t, below')
    decreases t, 0
  {
    SameShapeAll(t.kids, below, below');
  }

  lemma {:induction false} SameShapeAll(ts: seq<Tree>, below: map<Box, seq<Box>>, below': map<Box, seq<Box>>)
    requires ShapesAll(ts, below)
    requires forall b :: b in BoxesAll(ts) ==> b in below' && (b in below ==> below'[b] == below[b])
    ensures ShapesAll(ts, below')
    decreases ts, 1
  {
    if ts != [] {
      SameShapeAll(ts[..|ts| - 1], below, below');
      SameShape(ts[|ts| - 1], below, below');
    }
  }

  lemma {:induction false} ShapeAt(t: Tree, p: Box, below: map<Box, seq<Box>>)
    requires OnSpine(t, p) && Shapes(t, below)
    ensures p in below && below[p] == Tops(KidsAt(t, p)) && ShapesAll(KidsAt(t, p), below)
    decreases t
  {
    if t.box != p {
      ShapeAt(t.kids[|t.kids| - 1], p, below);
    }
  }

  lemma {:induction false} RebuiltShape(t: Tree, p: Box, ks: seq<Tree>, below: map<Box, seq<Box>>, below': map<Box,
      seq<Box>>)
    requires OnSpine(t, p) && Proper(t) && Shapes(t, below) && p in below' && below'[p] == Tops(ks)
             && ShapesAll(ks, below')
    requires forall b :: b in Boxes(t) && b != p && b !in BoxesAll(KidsAt(t, p)) ==>
             b in below' && (b in below ==> below'[b] == below[b])
    ensures Shapes(Rebuilt(t, p, ks), below')
    decreases t
  {
    if t.box != p {
      var n := |t.kids| - 1;
      var k := t.kids[n];
      SpineInside(k, p);
      RebuiltShape(k, p, ks, below, below');
      SameShapeAll(t.kids[..n], below, below');
      var r := Rebuilt(t, p, ks);
      LastOf(t.kids[..n], Rebuilt(k, p, ks));
      assert Tops(r.kids) == Tops(t.kids);
    }
  }

  lemma {:induction false} SameWords(t: Tree, words: map<Box, Leaf>, words': map<Box, Leaf>)
    requires forall b :: b in Boxes(t) ==> (b in words <==> b in words') && (b in words ==> words'[b] == words[b])
    ensures Words(t, words') == Words(t, words)
    decreases t, 0
  {
    SameWordsAll(t.kids, words, words');
  }

  lemma {:induction false} SameWordsAll(ts: seq<Tree>, words: map<Box, Leaf>, words': map<Box, Leaf>)
    requires forall b :: b in BoxesAll(ts) ==> (b in words <==> b in words') && (b in words ==> words'[b] == words[b])
    ensures WordsAll(ts, words') == WordsAll(ts, words)
    decreases ts, 1
  {
    if ts != [] {
      SameWordsAll(ts[..|ts| - 1], words, words');
      SameWords(ts[|ts| - 1], words, words');
    }
  }

  // What is added below a box on the rightmost spine is added at the end.
  lemma {:induction false} RebuiltWords(t: Tree, p: Box, ks: seq<Tree>, words: map<Box, Leaf>, words': map<Box, Leaf>,
                                        kept: seq<Leaf>, was: seq<Leaf>, now: seq<Leaf>, base: seq<Leaf>)
    requires OnSpine(t, p) && Proper(t) && Words(t, words) == base + was
    requires WordsAll(KidsAt(t, p), words) == kept + was && WordsAll(ks, words') == kept + now
    requires forall b :: b in Boxes(t) && b !in BoxesAll(KidsAt(t, p)) ==>
               (b in words <==> b in words') && (b in words ==> words'[b] == words[b])
    ensures Words(Rebuilt(t, p, ks), words') == base + now
    decreases t
  {
    var own := if t.box in words then [words[t.box]] else [];
    if t.box == p {
      PrefixOf(own, kept, was, base);
      assert own + (kept + now) == (own + kept) + now;
    } else {
      var n := |t.kids| - 1;
      var k, init := t.kids[n], t.kids[..n];
      SpineInside(k, p);
      WordsEnd(k, p, words, kept, was);
      var before := Words(k, words)[..|Words(k, words)| - |was|];
      assert Words(k, words) == before + was;
      RebuiltWords(k, p, ks, words, words', kept, was, now, before);
      SameWordsAll(init, words, words');
      RebuiltLast(t, p, ks, words');
      Regroup(own, WordsAll(init, words), before, was, base, now);
    }
  }

  lemma RebuiltLast(t: Tree, p: Box, ks: seq<Tree>, words: map<Box, Leaf>)
    requires OnSpine(t, p) && t.box != p
    ensures
      var n := |t.kids| - 1;
      Words(Rebuilt(t, p, ks), words)
      == (if t.box in words then [words[t.box]] else [])
          + (WordsAll(t.kids[..n], words) + Words(Rebuilt(t.kids[n], p, ks), words))
  {
    var n := |t.kids| - 1;
    LastOf(t.kids[..n], Rebuilt(t.kids[n], p, ks));
  }

  lemma Regroup<T>(own: seq<T>, all: seq<T>, before: seq<T>, was: seq<T>, base: seq<T>, now: seq<T>)
    requires own + (all + (before + was)) == base + was
    ensures own + (all + (before + now)) == base + now
  {
    assert own + (all + (before + was)) == own + ((all + before) + was);
    PrefixOf(own, all + before, was, base);
    assert own + (all + (before + now)) == (own + (all + before)) + now;
  }

  lemma PrefixOf<T>(a: seq<T>, b: seq<T>, was: seq<T>, base: seq<T>)
    requires a + (b + was) == base + was
    ensures a + b == base
  {
    assert (a + b) + was == base + was;
    assert base == (base + was)[..|base|];
    assert a + b == ((a + b) + was)[..|base|];
  }

  lemma {:induction false} WordsEnd(t: Tree, p: Box, words: map<Box, Leaf>, kept: seq<Leaf>, was: seq<Leaf>)
    requires OnSpine(t, p) && WordsAll(KidsAt(t, p), words) == kept + was
    ensures |Words(t, words)| >= |was| && Words(t, words)[|Words(t, words)| - |was|..] == was
    decreases t
  {
    if t.box != p {
      WordsEnd(t.kids[|t.kids| - 1], p, words, kept, was);
    }
  }
}
