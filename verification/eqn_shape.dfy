// Trees of boxes as values: what an equation looks like from the box that
// eqn_parse() in userland/mandoc/eqn.c is at.
module EqnShape {
  import opened Options
  import opened EqnTree
  import opened EqnState

  // A box without its links.
  datatype Shape = Shape(info: Info, kids: seq<Shape>)

  function InfoAt(infos: map<Box, Info>, b: Box): Info {
    if b in infos then infos[b] else NEWBOX
  }

  ghost function View(t: Tree, infos: map<Box, Info>): Shape
    decreases t
  {
    Shape(InfoAt(infos, t.box), ViewAll(t.kids, infos))
  }

  ghost function ViewAll(ts: seq<Tree>, infos: map<Box, Info>): (ss: seq<Shape>)
    ensures |ss| == |ts|
    decreases ts
  {
    if ts == [] then [] else ViewAll(ts[..|ts| - 1], infos) + [View(ts[|ts| - 1], infos)]
  }

  // The boxes from the root to p, each one without its last child except for
  // p itself.
  ghost function Frames(t: Tree, infos: map<Box, Info>, p: Box): (fs: seq<Shape>)
    requires OnSpine(t, p)
    ensures |fs| == |Chain(t, p)|
    decreases t
  {
    if t.box == p then [View(t, infos)]
    else
      var n := |t.kids| - 1;
      [Shape(InfoAt(infos, t.box), ViewAll(t.kids[..n], infos))] + Frames(t.kids[n], infos, p)
  }

  /*** moves on values ***********************************************************/

  function Top(fs: seq<Shape>): Shape
    requires fs != []
  {
    fs[|fs| - 1]
  }

  function Retop(fs: seq<Shape>, s: Shape): (r: seq<Shape>)
    requires fs != []
    ensures |r| == |fs| && Top(r) == s
  {
    fs[..|fs| - 1] + [s]
  }

  // Leave the innermost box.
  function Up(fs: seq<Shape>): (r: seq<Shape>)
    requires |fs| >= 2
    ensures |r| == |fs| - 1
  {
    var out := fs[..|fs| - 1];
    Retop(out, Top(out).(kids := Top(out).kids + [Top(fs)]))
  }

  // One more child.
  function Put(fs: seq<Shape>, s: Shape): (r: seq<Shape>)
    requires fs != []
    ensures |r| == |fs|
  {
    var t := Top(fs);
    Retop(fs, Shape(t.info.(args := t.info.args + 1), t.kids + [s]))
  }

  // One more child as the innermost box.
  function Push(fs: seq<Shape>, info: Info): (r: seq<Shape>)
    requires fs != []
    ensures |r| == |fs| + 1
  {
    var t := Top(fs);
    Retop(fs, t.(info := t.info.(args := t.info.args + 1))) + [Shape(info, [])]
  }

  // A new innermost box around the last child.
  function Group(fs: seq<Shape>, info: Info): (r: seq<Shape>)
    requires fs != [] && Top(fs).kids != []
    ensures |r| == |fs| + 1
  {
    var t := Top(fs);
    var n := |t.kids| - 1;
    Retop(fs, t.(kids := t.kids[..n])) + [Shape(info, [t.kids[n]])]
  }

  // Other contents for the innermost box.
  function Fill(fs: seq<Shape>, info: Info): (r: seq<Shape>)
    requires fs != []
    ensures |r| == |fs|
  {
    Retop(fs, Top(fs).(info := info))
  }

  /*** texts ********************************************************************/

  // A text box.
  function Lettering(l: Leaf, size: int): Shape {
    Shape(NEWBOX.(font := l.font, size := size, text := Some(l.text)), [])
  }

  // Another text and font for the last child.
  function Retext(fs: seq<Shape>, l: Leaf): (r: seq<Shape>)
    requires fs != [] && Top(fs).kids != []
    ensures |r| == |fs| && Top(r).kids != []
  {
    var t := Top(fs);
    var n := |t.kids| - 1;
    var k := t.kids[n];
    Retop(fs, t.(kids := t.kids[..n] + [k.(info := k.info.(text := Some(l.text), font := l.font))]))
  }

  // The pieces of a word one after the other: as soon as there is no room for
  // the next one, the last one goes into a list, without being counted.
  function Pieced(fs: seq<Shape>, ls: seq<Leaf>, size: int): (r: seq<Shape>)
    requires fs != [] && ls != []
    ensures |fs| <= |r| <= |fs| + 1 && (|r| > |fs| ==> Top(r).info.expectargs == None) && Top(r).kids != []
    decreases |ls|
  {
    var n := |ls| - 1;
    if n == 0 then Put(fs, Lettering(ls[0], size))
    else
      var g := Pieced(fs, ls[..n], size);
      var i := Top(g).info;
      Put(if Full(i) then Group(g, NEWBOX.(font := i.font, size := size, kind := List)) else g, Lettering(ls[n], size))
  }

  // A whole word.
  function Worded(fs: seq<Shape>, ls: seq<Leaf>, size: int): (r: seq<Shape>)
    requires fs != [] && ls != []
    ensures |r| == |fs|
  {
    var g := Pieced(fs, ls, size);
    if |g| > |fs| then Up(g) else g
  }

  lemma RetextPut(fs: seq<Shape>, l: Leaf, now: Leaf, size: int)
    requires fs != []
    ensures
      var g := Put(fs, Lettering(l, size));
      Top(g).kids != [] && Retext(g, now) == Put(fs, Lettering(now, size))
  {
    assert (Top(fs).kids + [Lettering(l, size)])[..|Top(fs).kids|] == Top(fs).kids;
  }

  lemma WordedOne(fs: seq<Shape>, l: Leaf, size: int)
    requires fs != []
    ensures Pieced(fs, [l], size) == Worded(fs, [l], size) == Put(fs, Lettering(l, size))
  {
    hide Put, Lettering;
  }

  // The last piece gets another text and font.
  lemma RetextPieced(fs: seq<Shape>, done: seq<Leaf>, l: Leaf, now: Leaf, size: int)
    requires fs != []
    ensures Retext(Pieced(fs, done + [l], size), now) == Pieced(fs, done + [now], size)
  {
    hide Put, Retext, Lettering, Top, Group, Full;
    assert (done + [l])[..|done|] == done == (done + [now])[..|done|];
    if done == [] {
      RetextPut(fs, l, now, size);
    } else {
      var g := Pieced(fs, done, size);
      var i := Top(g).info;
      RetextPut(if Full(i) then Group(g, NEWBOX.(font := i.font, size := size, kind := List)) else g, l, now, size);
    }
  }

  // One more piece.
  lemma PiecedMore(fs: seq<Shape>, done: seq<Leaf>, l: Leaf, size: int)
    requires fs != [] && done != []
    ensures
      var g := Pieced(fs, done, size);
      var i := Top(g).info;
      Pieced(fs, done + [l], size)
      == Put(if Full(i) then Group(g, NEWBOX.(font := i.font, size := size, kind := List)) else g, Lettering(l, size))
  {
    hide Put, Lettering, Top, Group, Full;
    assert (done + [l])[..|done|] == done;
  }

  /*** moves on trees ************************************************************/

  lemma {:induction false} SameView(t: Tree, infos: map<Box, Info>, infos': map<Box, Info>)
    requires forall b :: b in Boxes(t) ==> InfoAt(infos', b) == InfoAt(infos, b)
    ensures View(t, infos') == View(t, infos)
    decreases t, 0
  {
    SameViewAll(t.kids, infos, infos');
  }

  lemma {:induction false} SameViewAll(ts: seq<Tree>, infos: map<Box, Info>, infos': map<Box, Info>)
    requires forall b :: b in BoxesAll(ts) ==> InfoAt(infos', b) == InfoAt(infos, b)
    ensures ViewAll(ts, infos') == ViewAll(ts, infos)
    decreases ts, 1
  {
    hide InfoAt;
    if ts != [] {
      SameViewAll(ts[..|ts| - 1], infos, infos');
      SameView(ts[|ts| - 1], infos, infos');
    }
  }

  lemma ViewSnoc(ts: seq<Tree>, t: Tree, infos: map<Box, Info>)
    ensures ViewAll(ts + [t], infos) == ViewAll(ts, infos) + [View(t, infos)]
  {
    LastOf(ts, t);
  }

  lemma {:induction false} TopFrame(t: Tree, infos: map<Box, Info>, p: Box)
    requires OnSpine(t, p)
    ensures Top(Frames(t, infos, p)) == Shape(InfoAt(infos, p), ViewAll(KidsAt(t, p), infos))
    decreases t
  {
    if t.box != p {
      TopFrame(t.kids[|t.kids| - 1], infos, p);
    }
  }

  lemma {:induction false} FrameInfos(t: Tree, infos: map<Box, Info>, p: Box)
    requires OnSpine(t, p)
    ensures
      var fs, c := Frames(t, infos, p), Chain(t, p);
      |fs| == |c| && forall i :: 0 <= i < |c| ==> fs[i].info == InfoAt(infos, c[i])
    decreases t
  {
    if t.box != p {
      FrameInfos(t.kids[|t.kids| - 1], infos, p);
    }
  }

  lemma BehindFirst(f: Shape, fs: seq<Shape>, s: Shape)
    requires fs != []
    ensures Top([f] + fs) == Top(fs) && Retop([f] + fs, s) == [f] + Retop(fs, s)
  {
    assert ([f] + fs)[..|fs|] == [f] + fs[..|fs| - 1];
  }

  // Where p is when it is not the root.
  lemma SpineKid(t: Tree, p: Box) returns (k: Tree, ks: seq<Tree>)
    requires OnSpine(t, p) && Proper(t) && t.box != p
    ensures t.kids == ks + [k] && k == t.kids[|t.kids| - 1] && ks == t.kids[..|t.kids| - 1]
    ensures OnSpine(k, p) && Proper(k) && KidsAt(t, p) == KidsAt(k, p)
    ensures p in Boxes(k) && BoxesAll(KidsAt(k, p)) <= Boxes(k) && Boxes(t) == {t.box} + BoxesAll(ks) + Boxes(k)
    ensures t.box !in Boxes(k) && BoxesAll(ks) !! Boxes(k)
  {
    var n := |t.kids| - 1;
    k, ks := t.kids[n], t.kids[..n];
    SpineInside(k, p);
  }

  lemma RebuiltKid(t: Tree, p: Box, now: seq<Tree>, ks: seq<Tree>, k: Tree)
    requires OnSpine(t, p) && t.box != p && t.kids == ks + [k] && OnSpine(k, p)
    ensures Rebuilt(t, p, now) == Node(t.box, ks + [Rebuilt(k, p, now)]) && OnSpine(Rebuilt(t, p, now), p)
  {
    RebuiltSpine(t, p, now);
  }

  lemma FramesKid(t: Tree, infos: map<Box, Info>, p: Box, ks: seq<Tree>, k: Tree)
    requires OnSpine(t, p) && t.box != p && t.kids == ks + [k] && OnSpine(k, p)
    ensures Frames(t, infos, p) == [Shape(InfoAt(infos, t.box), ViewAll(ks, infos))] + Frames(k, infos, p)
  {
    assert t.kids[..|t.kids| - 1] == ks;
  }

  // Other children of p, and other contents of p and below it.
  lemma {:induction false} RebuiltFrames(t: Tree, p: Box, now: seq<Tree>, infos: map<Box, Info>,
                                         infos': map<Box, Info>)
    requires OnSpine(t, p) && Proper(t)
    requires forall b :: b in Boxes(t) && b != p && b !in BoxesAll(KidsAt(t, p)) ==>
               InfoAt(infos', b) == InfoAt(infos, b)
    ensures OnSpine(Rebuilt(t, p, now), p)
    ensures Frames(Rebuilt(t, p, now), infos', p)
         == Retop(Frames(t, infos, p), Shape(InfoAt(infos', p), ViewAll(now, infos')))
    decreases t
  {
    if t.box == p {
      hide InfoAt, ViewAll;
      assert Rebuilt(t, p, now) == Node(p, now);
    } else {
      hide InfoAt, Frames, View, ViewAll, Retop, Top, Rebuilt, KidsAt, OnSpine, Proper, Boxes, BoxesAll, Chain;
      var k, ks := SpineKid(t, p);
      RebuiltFrames(k, p, now, infos, infos');
      SameViewAll(ks, infos, infos');
      RebuiltKid(t, p, now, ks, k);
      FramesKid(t, infos, p, ks, k);
      RebuiltSpine(k, p, now);
      FramesKid(Rebuilt(t, p, now), infos', p, ks, Rebuilt(k, p, now));
      assert InfoAt(infos', t.box) == InfoAt(infos, t.box);
      BehindFirst(Shape(InfoAt(infos, t.box), ViewAll(ks, infos)), Frames(k, infos, p),
                  Shape(InfoAt(infos', p), ViewAll(now, infos')));
    }
  }

  // The last child of p as the innermost box.
  lemma {:induction false} DownFrames(t: Tree, p: Box, infos: map<Box, Info>)
    requires OnSpine(t, p) && Proper(t) && KidsAt(t, p) != []
    ensures
      var ks, fs := KidsAt(t, p), Frames(t, infos, p);
      var n := |ks| - 1;
      OnSpine(t, ks[n].box) && Frames(t, infos, ks[n].box)
          == Retop(fs, Top(fs).(kids := ViewAll(ks[..n], infos))) + [View(ks[n], infos)]
    decreases t
  {
    hide InfoAt, Frames, View, ViewAll, Retop, Top, KidsAt, OnSpine, Proper, Boxes, BoxesAll, Chain;
    var ls := KidsAt(t, p);
    var q := ls[|ls| - 1].box;
    SpineDown(t, p);
    if t.box == p {
      LastFrames(t, q, infos);
    } else {
      var k, ks := SpineKid(t, p);
      DownFrames(k, p, infos);
      FramesKid(t, infos, p, ks, k);
      KidInside(k, q);
      FramesKid(t, infos, q, ks, k);
      var f, fs := Shape(InfoAt(infos, t.box), ViewAll(ks, infos)), Frames(k, infos, p);
      BehindFirst(f, fs, Top(fs).(kids := ViewAll(ls[..|ls| - 1], infos)));
    }
  }

  lemma KidInside(t: Tree, q: Box)
    requires OnSpine(t, q)
    ensures q in Boxes(t)
  {
    SpineInside(t, q);
  }

  lemma LastFrames(t: Tree, q: Box, infos: map<Box, Info>)
    requires KidsAt(t, t.box) != [] && KidsAt(t, t.box)[|KidsAt(t, t.box)| - 1].box == q && OnSpine(t, q) && Proper(t)
    ensures KidsAt(t, t.box) == t.kids
    ensures
      var n, fs := |t.kids| - 1, Frames(t, infos, t.box);
      Frames(t, infos, q) == Retop(fs, Top(fs).(kids := ViewAll(t.kids[..n], infos))) + [View(t.kids[n], infos)]
  {
    hide View, ViewAll;
    assert q != t.box;
    var n, fs := |t.kids| - 1, Frames(t, infos, t.box);
    assert Top(fs).info == InfoAt(infos, t.box) by {
      TopFrame(t, infos, t.box);
    }
    assert fs[..0] == [];
  }

  lemma UpFrames(t: Tree, p: Box, infos: map<Box, Info>)
    requires OnSpine(t, p) && Proper(t) && p != t.box
    ensures
      var c := Chain(t, p);
      |c| >= 2 && OnSpine(t, c[|c| - 2]) && Frames(t, infos, c[|c| - 2]) == Up(Frames(t, infos, p))
  {
    hide InfoAt, Frames, View, ViewAll, KidsAt, OnSpine, Proper, Boxes, BoxesAll, Chain, Up, Top, Retop;
    SpineUp(t, p);
    LeaveLast(t, Chain(t, p)[|Chain(t, p)| - 2], infos);
  }

  lemma LeaveLast(t: Tree, q: Box, infos: map<Box, Info>)
    requires OnSpine(t, q) && Proper(t) && KidsAt(t, q) != []
    ensures
      var p := KidsAt(t, q)[|KidsAt(t, q)| - 1].box;
      OnSpine(t, p) && |Frames(t, infos, p)| >= 2 && Up(Frames(t, infos, p)) == Frames(t, infos, q)
  {
    hide InfoAt, Frames, View, ViewAll, KidsAt, OnSpine, Proper, Boxes, BoxesAll, Chain, Up, Top, Retop;
    var ks, fs := KidsAt(t, q), Frames(t, infos, q);
    DownFrames(t, q, infos);
    TopFrame(t, infos, q);
    var n := |ks| - 1;
    assert ks == ks[..n] + [ks[n]];
    ViewSnoc(ks[..n], ks[n], infos);
    UpAgain(fs, ViewAll(ks[..n], infos), View(ks[n], infos));
  }

  lemma UpAgain(fs: seq<Shape>, ss: seq<Shape>, s: Shape)
    requires fs != [] && Top(fs).kids == ss + [s]
    ensures Up(Retop(fs, Top(fs).(kids := ss)) + [s]) == fs
  {
    var gs := Retop(fs, Top(fs).(kids := ss)) + [s];
    assert gs[..|fs|] == Retop(fs, Top(fs).(kids := ss));
    assert fs == fs[..|fs| - 1] + [Top(fs)];
  }

  /*** moves on equations *********************************************************/

  ghost function FramesOf(e: Equation, p: Box): (fs: seq<Shape>)
    requires OnSpine(e.tree, p)
    ensures fs != []
  {
    Frames(e.tree, e.infos, p)
  }

  lemma FramesTop(e: Equation, p: Box)
    requires Good(e) && Place(e, p)
    ensures Top(FramesOf(e, p)) == Shape(e.infos[p], ViewAll(KidsAt(e.tree, p), e.infos))
    ensures Top(FramesOf(e, p)).kids == [] <==> e.below[p] == []
  {
    hide Good, OnSpine, Chain, KidsAt, Top, Frames, ViewAll;
    TopFrame(e.tree, e.infos, p);
    BelowKids(e, p);
  }

  lemma BelowKids(e: Equation, p: Box)
    requires Good(e) && Place(e, p)
    ensures Proper(e.tree) && e.below[p] == Tops(KidsAt(e.tree, p)) && |e.below[p]| == |KidsAt(e.tree, p)|
    ensures Boxes(e.tree) == e.infos.Keys == e.links.Keys
  {
    ShapeAt(e.tree, p, e.below);
  }

  lemma NewView(b: Box, infos: map<Box, Info>)
    ensures View(Node(b, []), infos) == Shape(InfoAt(infos, b), [])
  {
  }

  // The boxes below p, and p itself.
  lemma KidsKnown(e: Equation, p: Box)
    requires Good(e) && Place(e, p)
    ensures Proper(e.tree) && p !in BoxesAll(KidsAt(e.tree, p)) && BoxesAll(KidsAt(e.tree, p)) <= e.infos.Keys
    ensures Boxes(e.tree) == e.infos.Keys == e.links.Keys
  {
    KidsProper(e.tree, p);
    SpineInside(e.tree, p);
    BelowKids(e, p);
  }

  lemma AppendedFrames(e: Equation, p: Box, b: Box, info: Info)
    requires Good(e) && Place(e, p) && b !in e.links && HasRoom(e.infos[p]) && info.text == None && info.args == 0
             && Fits(info)
    ensures
      var f := Appended(e, p, b, info);
      && OnSpine(f.tree, p) && FramesOf(f, p) == Put(FramesOf(e, p), Shape(info, []))
      && OnSpine(f.tree, b) && FramesOf(f, b) == Push(FramesOf(e, p), info)
  {
    hide Good, OnSpine, Chain, KidsAt, Frames, ViewAll, Rebuilt, HasRoom, Fits, Proper, Boxes, BoxesAll, Put, Push;
    hide View, InfoAt, Top, Retop, Appended;
    GrownFrames(e, p, b, info);
    var f := Appended(e, p, b, info);
    AppendedProper(e, p, b, info);
    DownFrames(f.tree, p, f.infos);
    TopFrame(f.tree, f.infos, p);
    PushIsPut(FramesOf(e, p), info);
    var ks := KidsAt(f.tree, p);
    var n := |ks| - 1;
    assert ks[..n] + [ks[n]] == ks;
    ViewSnoc(ks[..n], ks[n], f.infos);
    NewView(b, f.infos);
    AppendedInfo(e, p, b, info);
    PutKids(FramesOf(e, p), Shape(info, []), ViewAll(ks[..n], f.infos));
  }

  lemma AppendedInfo(e: Equation, p: Box, b: Box, info: Info)
    requires Place(e, p)
    ensures InfoAt(Appended(e, p, b, info).infos, b) == info
  {
    hide OnSpine, KidsAt, Rebuilt;
  }

  lemma AppendedProper(e: Equation, p: Box, b: Box, info: Info)
    requires Good(e) && Place(e, p) && b !in e.links && HasRoom(e.infos[p]) && info.text == None && info.args == 0
             && Fits(info)
    ensures
      var f := Appended(e, p, b, info);
      && OnSpine(f.tree, p) && Proper(f.tree) && KidsAt(f.tree, p) == KidsAt(e.tree, p) + [Node(b, [])]
      && f.tree == Rebuilt(e.tree, p, KidsAt(f.tree, p))
  {
    hide OnSpine, Chain, KidsAt, Rebuilt, HasRoom, Fits, Boxes, BoxesAll, Words, Inside, Linked, Texts, Counted;
    hide Limits, Rooted, Proper, Shapes;
    KeysOf(e);
    AppendedGood(e, p, b, info);
  }

  // One more child, with any contents.
  lemma GrownFrames(e: Equation, p: Box, b: Box, info: Info)
    requires Good(e) && Place(e, p) && b !in e.links
    ensures
      var f := Appended(e, p, b, info);
      OnSpine(f.tree, p) && FramesOf(f, p) == Put(FramesOf(e, p), Shape(info, []))
  {
    hide Good, OnSpine, Chain, KidsAt, Frames, ViewAll, Rebuilt, Proper, Boxes, BoxesAll, View, Appending, Retop, Top;
    KidsKnown(e, p);
    var ks, f := KidsAt(e.tree, p), Appended(e, p, b, info);
    RebuiltFrames(e.tree, p, ks + [Node(b, [])], e.infos, f.infos);
    ViewSnoc(ks, Node(b, []), f.infos);
    NewView(b, f.infos);
    SameViewAll(ks, e.infos, f.infos);
    TopFrame(e.tree, e.infos, p);
  }

  lemma PushIsPut(fs: seq<Shape>, info: Info)
    requires fs != []
    ensures
      var g := Put(fs, Shape(info, []));
      Push(fs, info) == Retop(g, Top(g).(kids := Top(fs).kids)) + [Shape(info, [])]
  {
  }

  lemma PutKids(fs: seq<Shape>, s: Shape, ss: seq<Shape>)
    requires fs != [] && Top(Put(fs, s)).kids == ss + [s]
    ensures Top(fs).kids == ss
  {
    var t := Top(fs);
    assert t.kids + [s] == ss + [s];
    assert t.kids == (t.kids + [s])[..|t.kids|];
  }

  // A new text box.
  lemma LabelledFrames(e: Equation, p: Box, b: Box, info: Info, now: Info)
    requires Good(e) && Place(e, p) && b !in e.links && now.text.Some?
    ensures
      var f := Labelled(Appended(e, p, b, info), b, now);
      OnSpine(f.tree, p) && FramesOf(f, p) == Put(FramesOf(e, p), Shape(now, []))
  {
    hide Good, OnSpine, Chain, KidsAt, Frames, Rebuilt, Put, Appending;
    GrownFrames(e, p, b, now);
    AppendedAgain(e, p, b, info, now);
  }

  lemma GroupedFrames(e: Equation, p: Box, b: Box, info: Info)
    requires Good(e) && Place(e, p) && Operand(e, p) && b !in e.links && info.text == None && Fits(info)
    requires info.args == 1 || (info.args == 0 && info.kind == List && info.expectargs == None)
    ensures
      var f := Grouped(e, p, b, info);
      && Top(FramesOf(e, p)).kids != []
      && OnSpine(f.tree, b) && FramesOf(f, b) == Group(FramesOf(e, p), info)
  {
    hide Good, OnSpine, Chain, KidsAt, Frames, ViewAll, Rebuilt, Proper, Boxes, BoxesAll, View, Grouping, Retop, Top;
    hide InfoAt, Grouped, Fits;
    FramesTop(e, p);
    GroupedKids(e, p, b, info);
    var f, ks := Grouped(e, p, b, info), KidsAt(e.tree, p);
    var n := |ks| - 1;
    GroupedView(e, p, b, info);
    DownFrames(f.tree, p, f.infos);
    var now := KidsAt(f.tree, p);
    assert now[..n] == ks[..n];
    assert ks[..n] + [ks[n]] == ks;
    ViewSnoc(ks[..n], ks[n], e.infos);
    GroupedLast(FramesOf(e, p), FramesOf(f, p), ViewAll(ks[..n], e.infos), View(ks[n], e.infos), info);
  }

  lemma GroupedLast(fs: seq<Shape>, gs: seq<Shape>, ss: seq<Shape>, s: Shape, info: Info)
    requires fs != [] && Top(fs).kids == ss + [s] && gs == Retop(fs, Shape(Top(fs).info, ss + [Shape(info, [s])]))
    ensures Group(fs, info) == Retop(gs, Top(gs).(kids := ss)) + [Shape(info, [s])]
  {
  }

  lemma GroupedKids(e: Equation, p: Box, b: Box, info: Info)
    requires Good(e) && Place(e, p) && Operand(e, p) && b !in e.links && info.text == None && Fits(info)
    requires info.args == 1 || (info.args == 0 && info.kind == List && info.expectargs == None)
    ensures
      var f, ks := Grouped(e, p, b, info), KidsAt(e.tree, p);
      var n := |ks| - 1;
      && n >= 0 && OnSpine(f.tree, p) && Proper(f.tree) && KidsAt(f.tree, p) == ks[..n] + [Node(b, [ks[n]])]
      && f.tree == Rebuilt(e.tree, p, KidsAt(f.tree, p)) && f.infos == e.infos[b := info]
  {
    hide OnSpine, Chain, KidsAt, Rebuilt, Fits, Boxes, BoxesAll, Words, Inside, Linked, Texts, Counted, Limits, Rooted;
    hide Proper, Shapes;
    KeysOf(e);
    GroupedGood(e, p, b, info);
    var ks := KidsAt(e.tree, p);
    RebuiltSpine(e.tree, p, ks[..|ks| - 1] + [Node(b, [ks[|ks| - 1]])]);
  }

  lemma GroupedView(e: Equation, p: Box, b: Box, info: Info)
    requires Good(e) && Place(e, p) && Operand(e, p) && b !in e.links && info.text == None && Fits(info)
    requires info.args == 1 || (info.args == 0 && info.kind == List && info.expectargs == None)
    ensures
      var f, ks := Grouped(e, p, b, info), KidsAt(e.tree, p);
      var n := |ks| - 1;
      && n >= 0 && OnSpine(f.tree, p) && View(Node(b, [ks[n]]), f.infos) == Shape(info, [View(ks[n], e.infos)])
      && ViewAll(ks[..n], f.infos) == ViewAll(ks[..n], e.infos)
      && FramesOf(f, p) == Retop(FramesOf(e, p), Shape(Top(FramesOf(e, p)).info,
              ViewAll(ks[..n], e.infos) + [Shape(info, [View(ks[n], e.infos)])]))
  {
    hide Good, OnSpine, Chain, KidsAt, Frames, ViewAll, Rebuilt, Proper, Boxes, BoxesAll, View, Grouping, Retop, Top;
    hide Grouped, Fits;
    KidsKnown(e, p);
    GroupedKids(e, p, b, info);
    var f, ks := Grouped(e, p, b, info), KidsAt(e.tree, p);
    var n := |ks| - 1;
    assert ks == ks[..n] + [ks[n]];
    Snoc(ks[..n], ks[n], map[], map[]);
    SameViewAll(ks[..n], e.infos, f.infos);
    SameView(ks[n], e.infos, f.infos);
    WrapView(b, ks[n], f.infos);
    ViewSnoc(ks[..n], Node(b, [ks[n]]), f.infos);
    RebuiltFrames(e.tree, p, KidsAt(f.tree, p), e.infos, f.infos);
    TopFrame(e.tree, e.infos, p);
  }

  lemma WrapView(b: Box, k: Tree, infos: map<Box, Info>)
    ensures View(Node(b, [k]), infos) == Shape(InfoAt(infos, b), [View(k, infos)])
  {
    assert [k][..0] == [];
  }

  lemma FilledFrames(e: Equation, p: Box, info: Info)
    requires Good(e) && Place(e, p)
    ensures FramesOf(Filled(e, p, info), p) == Fill(FramesOf(e, p), info)
  {
    hide Good, OnSpine, Chain, KidsAt, Frames, ViewAll, Rebuilt, Proper, Boxes, BoxesAll, View, Retop, Top;
    KidsKnown(e, p);
    var ks, f := KidsAt(e.tree, p), Filled(e, p, info);
    RebuiltSame(e.tree, p);
    RebuiltFrames(e.tree, p, ks, e.infos, f.infos);
    SameViewAll(ks, e.infos, f.infos);
    TopFrame(e.tree, e.infos, p);
  }

  // Another text and font for the last text box.
  lemma RetextFrames(e: Equation, p: Box, b: Box, info: Info)
    requires Good(e) && Place(e, p) && Newest(e, p, b) && b in e.infos && info.text.Some?
    requires info == e.infos[b].(text := info.text, font := info.font)
    ensures
      var f, l := Labelled(e, b, info), Leaf(info.text.value, info.font);
      OnSpine(f.tree, p) && Top(FramesOf(e, p)).kids != [] && FramesOf(f, p) == Retext(FramesOf(e, p), l)
  {
    hide Good, OnSpine, Chain, KidsAt, Frames, ViewAll, Rebuilt, Proper, Boxes, BoxesAll, View, Retop, Top;
    KidsKnown(e, p);
    var ks, f := KidsAt(e.tree, p), Labelled(e, b, info);
    var n := |ks| - 1;
    assert ks == ks[..n] + [ks[n]] && ks[n] == Node(b, []);
    Snoc(ks[..n], ks[n], map[], map[]);
    Single(ks[n], map[b := []], map[]);
    KidsProper(e.tree, p);
    ViewSnoc(ks[..n], ks[n], e.infos);
    ViewSnoc(ks[..n], ks[n], f.infos);
    NewView(b, e.infos);
    NewView(b, f.infos);
    SameViewAll(ks[..n], e.infos, f.infos);
    RebuiltSame(e.tree, p);
    RebuiltFrames(e.tree, p, ks, e.infos, f.infos);
    TopFrame(e.tree, e.infos, p);
  }
}
