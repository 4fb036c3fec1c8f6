// How the tree of an equation grows while eqn_parse() in
// userland/mandoc/eqn.c reads it.
module EqnState {
  import opened Options
  import opened EqnTree

  /*** what the boxes are *******************************************************/

  // A tree with the children, the links, the contents, and the texts of its
  // boxes, and the lists made by splitting words.
  datatype Equation = Equation(tree: Tree, below: map<Box, seq<Box>>, links: map<Box, Ptrs>, infos: map<Box, Info>,
                               words: map<Box, Leaf>, lists: set<Box>)

  // The links of b and of its children agree.
  ghost predicate Joined(b: Box, ks: seq<Box>, links: map<Box, Ptrs>)
    requires b in links && forall i :: 0 <= i < |ks| ==> ks[i] in links
  {
    && (ks == [] ==> links[b].first == null && links[b].last == null)
    && (ks != [] ==> links[b].first == ks[0] && links[b].last == ks[|ks| - 1])
    && (ks != [] ==> links[ks[0]].prev == null && links[ks[|ks| - 1]].next == null)
    && (forall i :: 0 <= i < |ks| ==> links[ks[i]].parent == b && ks[i] != b)
    && (forall i, j {:trigger ks[i], ks[j]} :: 0 <= i && j == i + 1 && j < |ks| ==>
       links[ks[i]].next == ks[j] && links[ks[j]].prev == ks[i])
    && (forall i, j :: 0 <= i < j < |ks| ==> ks[i] != ks[j])
  }

  ghost predicate Inside(below: map<Box, seq<Box>>, links: map<Box, Ptrs>) {
    below.Keys == links.Keys && forall b, i :: b in below && 0 <= i < |below[b]| ==> below[b][i] in links
  }

  ghost predicate Linked(below: map<Box, seq<Box>>, links: map<Box, Ptrs>)
    requires Inside(below, links)
  {
    forall b {:trigger Joined(b, below[b], links)} :: b in below ==> Joined(b, below[b], links)
  }

  // The links after eqn_box_alloc().
  ghost function Appending(links: map<Box, Ptrs>, p: Box, b: Box): map<Box, Ptrs>
    requires p in links
  {
    var at := links[p];
    var linked := if at.last == null || at.last !in links then links else links[at.last := links[at.last].(next := b)];
    linked[p := at.(first := if at.first == null then b
        else at.first, last := b)][b := Ptrs(p, at.last, null, null, null)]
  }

  // Links that do not change.
  lemma JoinedKept(b: Box, ks: seq<Box>, links: map<Box, Ptrs>, links': map<Box, Ptrs>)
    requires b in links && b in links' && (forall i :: 0 <= i < |ks| ==> ks[i] in links && ks[i] in links')
    requires Joined(b, ks, links) && links'[b].first == links[b].first && links'[b].last == links[b].last
    requires forall i :: 0 <= i < |ks| ==>
               links'[ks[i]].parent == b && links'[ks[i]].prev == links[ks[i]].prev
                   && links'[ks[i]].next == links[ks[i]].next
    ensures Joined(b, ks, links')
  {
  }

  lemma AppendingJoined(p: Box, ks: seq<Box>, b: Box, links: map<Box, Ptrs>)
    requires p in links && b !in links && (forall i :: 0 <= i < |ks| ==> ks[i] in links) && Joined(p, ks, links)
    ensures links[p].last != null ==> links[p].last in links && links[p].last != p
    ensures
      var links' := Appending(links, p, b);
      (forall i :: 0 <= i < |ks + [b]| ==> (ks + [b])[i] in links') && Joined(p, ks + [b], links')
  {
    if ks != [] {
      assert ks[|ks| - 1] in links;
    }
  }

  lemma AppendingLinked(below: map<Box, seq<Box>>, links: map<Box, Ptrs>, p: Box, b: Box)
    requires Inside(below, links) && Linked(below, links) && p in below && b !in below
    ensures links[p].last != null ==> links[p].last in links && links[p].last != p
    ensures
      var below' := below[p := below[p] + [b]][b := []];
      var links' := Appending(links, p, b);
      Inside(below', links') && Linked(below', links')
  {
    assert Joined(p, below[p], links);
    AppendingJoined(p, below[p], b, links);
    var links' := Appending(links, p, b);
    forall x | x in below && x != p
      ensures Joined(x, below[x], links')
    {
      assert Joined(x, below[x], links);
      var l := links[p].last;
      assert l != null ==> links[l].parent == p;
      JoinedKept(x, below[x], links, links');
    }
  }

  // The links after eqn_box_makebinary().
  ghost function Grouping(links: map<Box, Ptrs>, p: Box, b: Box): map<Box, Ptrs>
    requires p in links && links[p].last != null && links[p].last in links
  {
    var at := links[p];
    var c := at.last;
    var q := links[c].prev;
    var linked := if q == null || q !in links then links else links[q := links[q].(next := b)];
    linked[c := linked[c].(parent := b, prev := null, next := null)]
      [p := at.(first := if q == null then b else at.first, last := b)][b := Ptrs(p, q, null, c, c)]
  }

  lemma GroupingJoined(p: Box, ks: seq<Box>, b: Box, links: map<Box, Ptrs>)
    requires p in links && b !in links && ks != [] && (forall i :: 0 <= i < |ks| ==> ks[i] in links)
             && Joined(p, ks, links)
    ensures
      var n := |ks| - 1;
      && links[p].last == ks[n] && links[ks[n]].prev == (if n == 0 then null else ks[n - 1])
         && links[ks[n]].parent == p && ks[n] != p && (n > 0 ==> ks[n - 1] != p)
      && (n == 0 <==> links[p].first == links[p].last)
      && var links' := Grouping(links, p, b);
         && (forall i :: 0 <= i < |ks[..n] + [b]| ==> (ks[..n] + [b])[i] in links') && Joined(p, ks[..n] + [b], links')
         && (forall i :: 0 <= i < |[ks[n]]| ==> [ks[n]][i] in links') && Joined(b, [ks[n]], links')
  {
    var n := |ks| - 1;
    var c, q := ks[n], if n == 0 then null else ks[n - 1];
    assert links[c].prev == q;
    assert n > 0 ==> q in links && q != c && q != p;
  }

  lemma GroupingKept(p: Box, ks: seq<Box>, b: Box, links: map<Box, Ptrs>, x: Box, xs: seq<Box>)
    requires p in links && b !in links && ks != [] && (forall i :: 0 <= i < |ks| ==> ks[i] in links)
             && Joined(p, ks, links)
    requires x in links && x != p && (forall i :: 0 <= i < |xs| ==> xs[i] in links) && Joined(x, xs, links)
    ensures links[p].last != null && links[p].last in links
    ensures x in Grouping(links, p, b) && forall i :: 0 <= i < |xs| ==> xs[i] in Grouping(links, p, b)
    ensures Joined(x, xs, Grouping(links, p, b))
  {
    var n := |ks| - 1;
    assert links[ks[n]].parent == p && (n > 0 ==> links[ks[n - 1]].parent == p && links[ks[n]].prev == ks[n - 1]);
    JoinedKept(x, xs, links, Grouping(links, p, b));
  }

  lemma GroupingLinked(below: map<Box, seq<Box>>, links: map<Box, Ptrs>, p: Box, b: Box)
    requires Inside(below, links) && Linked(below, links) && p in below && below[p] != [] && b !in below
    ensures
      var ks := below[p];
      var n := |ks| - 1;
      && links[p].last == ks[n] && links[ks[n]].prev == (if n == 0 then null else ks[n - 1]) && links[ks[n]].parent == p
      && ks[n] != p && (n > 0 ==> ks[n - 1] != p) && (n == 0 <==> links[p].first == links[p].last)
      && var below' := below[p := ks[..n] + [b]][b := [ks[n]]];
         var links' := Grouping(links, p, b);
         Inside(below', links') && Linked(below', links')
  {
    var ks := below[p];
    assert Joined(p, ks, links);
    GroupingJoined(p, ks, b, links);
    forall x | x in below && x != p
      ensures x in Grouping(links, p, b) && forall i :: 0 <= i < |below[x]| ==> below[x][i] in Grouping(links, p, b)
      ensures Joined(x, below[x], Grouping(links, p, b))
    {
      assert Joined(x, below[x], links);
      hide Joined;
      GroupingKept(p, ks, b, links, x, below[x]);
    }
    hide Joined;
  }

  ghost predicate Shaped(e: Equation) {
    && Proper(e.tree) && Shapes(e.tree, e.below) && Boxes(e.tree) == e.below.Keys
    && Inside(e.below, e.links) && Linked(e.below, e.links)
  }

  // Only text boxes have a text, and no children.
  ghost predicate Texts(e: Equation) {
    && e.infos.Keys == e.below.Keys && e.words.Keys <= e.below.Keys
    && forall b :: b in e.infos ==>
         && (b in e.words <==> e.infos[b].text.Some?)
         && (b in e.words ==>
               e.below[b] == [] && e.infos[b].text.value == e.words[b].text && e.infos[b].font == e.words[b].font)
  }

  // The number of arguments is the number of children, but the first part
  // of a word that was split does not count.
  ghost predicate Counted(e: Equation)
    requires e.infos.Keys == e.below.Keys
  {
    && (forall b :: b in e.infos ==> e.infos[b].args == |e.below[b]| - (if b in e.lists then 1 else 0))
    && (forall b :: b in e.lists ==>
          b in e.infos && e.below[b] != [] && e.infos[b].kind == List && e.infos[b].expectargs == None)
  }

  // Only piles get more arguments than they expect.
  predicate Fits(i: Info) {
    && (i.expectargs.Some? ==> i.expectargs.value >= 1 && (i.kind == Pile || i.args <= i.expectargs.value))
    && (i.pos == Sub || i.pos == From ==> i.expectargs == Some(2))
  }

  predicate HasRoom(i: Info) {
    i.expectargs.Some? && i.kind != Pile ==> i.args < i.expectargs.value
  }

  ghost predicate Limits(e: Equation) {
    forall b :: b in e.infos ==> Fits(e.infos[b])
  }

  ghost predicate Rooted(e: Equation) {
    && e.tree.box in e.infos && e.tree.box in e.links && e.links[e.tree.box].parent == null
    && var i := e.infos[e.tree.box]; i.expectargs == None && i.kind == Text && i.pos == NoPos && i.text == None
  }

  ghost predicate Good(e: Equation) {
    Shaped(e) && Texts(e) && Counted(e) && Limits(e) && Rooted(e)
  }

  // A new box behind the children of p.
  ghost function Appended(e: Equation, p: Box, b: Box, info: Info): Equation
    requires OnSpine(e.tree, p) && p in e.below && p in e.links && p in e.infos
  {
    e.(tree := Rebuilt(e.tree, p, KidsAt(e.tree, p) + [Node(b, [])]), below := e.below[p := e.below[p] + [b]][b := []],
       links := Appending(e.links, p, b), infos := e.infos[p := e.infos[p].(args := e.infos[p].args + 1)][b := info])
  }

  lemma AppendedAt(e: Equation, p: Box, b: Box, info: Info, x: Box)
    requires OnSpine(e.tree, p) && p in e.below && p in e.links && p in e.infos && b !in e.links
             && e.infos.Keys == e.links.Keys
    requires e.links[p].last != null ==> e.links[p].last in e.links && e.links[p].last != p
    ensures
      var f := Appended(e, p, b, info);
      && f.links.Keys == e.links.Keys + {b} && f.infos.Keys == f.links.Keys
      && (x in f.links ==>
            var at := e.links[p];
            && f.links[x] == (if x == b then Ptrs(p, at.last, null, null, null)
                              else if x == p then at.(first := if at.first == null then b else at.first, last := b)
                              else if x == at.last then e.links[x].(next := b)
                              else e.links[x])
            && f.infos[x] == (if x == b then info
                              else if x == p then e.infos[x].(args := e.infos[x].args + 1)
                              else e.infos[x]))
  {
    hide Rebuilt, OnSpine, KidsAt;
  }

  lemma SameKeys(below: map<Box, seq<Box>>, links: map<Box, Ptrs>)
    requires Inside(below, links)
    ensures below.Keys == links.Keys
  {
  }

  lemma AppendedGood(e: Equation, p: Box, b: Box, info: Info)
    requires Good(e) && OnSpine(e.tree, p) && p in e.infos && p in e.links && p !in e.words && b !in e.below
    requires HasRoom(e.infos[p])
    requires info.text == None && info.args == 0 && Fits(info)
    ensures
      var f := Appended(e, p, b, info);
      && Good(f) && f.tree.box == e.tree.box && f.links.Keys == e.links.Keys + {b}
         && Words(f.tree, f.words) == Words(e.tree, e.words)
      && OnSpine(f.tree, p) && Chain(f.tree, p) == Chain(e.tree, p)
         && KidsAt(f.tree, p) == KidsAt(e.tree, p) + [Node(b, [])]
  {
    assert e.words.Keys <= e.below.Keys;
    hide Rebuilt, Words, Boxes, OnSpine, Chain, KidsAt, Shaped, Texts, Counted, Limits, Rooted;
    AppendedShaped(e, p, b, info);
    AppendedTexts(e, p, b, info);
    AppendedCounted(e, p, b, info);
    AppendedLimits(e, p, b, info);
  }

  lemma AppendedShaped(e: Equation, p: Box, b: Box, info: Info)
    requires Shaped(e) && OnSpine(e.tree, p) && p in e.below && p in e.links && p in e.infos && b !in e.below
             && b !in e.words
    ensures
      var f := Appended(e, p, b, info);
      && Shaped(f) && f.tree.box == e.tree.box && f.links.Keys == e.links.Keys + {b}
         && Words(f.tree, f.words) == Words(e.tree, e.words)
      && OnSpine(f.tree, p) && Chain(f.tree, p) == Chain(e.tree, p)
         && KidsAt(f.tree, p) == KidsAt(e.tree, p) + [Node(b, [])]
  {
    hide Rebuilt, Proper, Shapes, Words, Boxes, OnSpine, Chain, KidsAt, Linked, Inside, Appending;
    AppendingLinked(e.below, e.links, p, b);
    SameKeys(e.below, e.links);
    SameKeys(e.below[p := e.below[p] + [b]][b := []], Appending(e.links, p, b));
    Grow(e.tree, p, Node(b, []), e.below, e.words);
  }

  lemma AppendedTexts(e: Equation, p: Box, b: Box, info: Info)
    requires Texts(e) && OnSpine(e.tree, p) && p in e.infos && p in e.links && p !in e.words && b !in e.below
             && info.text == None
    ensures Texts(Appended(e, p, b, info))
  {
    hide Rebuilt, OnSpine, KidsAt;
  }

  lemma AppendedCounted(e: Equation, p: Box, b: Box, info: Info)
    requires Texts(e) && Counted(e) && OnSpine(e.tree, p) && p in e.infos && p in e.links && b !in e.below
    requires info.args == 0
    ensures
      var f := Appended(e, p, b, info);
      f.infos.Keys == f.below.Keys && Counted(f)
  {
    hide Rebuilt, OnSpine, KidsAt;
  }

  lemma AppendedLimits(e: Equation, p: Box, b: Box, info: Info)
    requires Texts(e) && Limits(e) && Rooted(e) && OnSpine(e.tree, p) && p in e.infos && p in e.links && b !in e.below
    requires HasRoom(e.infos[p])
    requires Fits(info)
    ensures Limits(Appended(e, p, b, info)) && Rooted(Appended(e, p, b, info))
  {
    hide Rebuilt, OnSpine, KidsAt;
  }

  lemma Grow(t: Tree, p: Box, leaf: Tree, below: map<Box, seq<Box>>, words: map<Box, Leaf>)
    requires OnSpine(t, p) && Proper(t) && Shapes(t, below) && Boxes(t) == below.Keys
    requires leaf.kids == [] && leaf.box !in below && leaf.box !in words
    ensures
      var r := Rebuilt(t, p, KidsAt(t, p) + [leaf]);
      && p in below && Proper(r) && Boxes(r) == Boxes(t) + {leaf.box}
      && Shapes(r, below[p := below[p] + [leaf.box]][leaf.box := []])
      && OnSpine(r, p) && Chain(r, p) == Chain(t, p) && KidsAt(r, p) == KidsAt(t, p) + [leaf]
      && Words(r, words) == Words(t, words)
  {
    hide Rebuilt, Proper, ProperAll, Shapes, ShapesAll, WordsAll, Words, BoxesAll, OnSpine, Chain, KidsAt;
    var kids := KidsAt(t, p);
    var ks := kids + [leaf];
    ShapeAt(t, p, below);
    SpineInside(t, p);
    var below' := below[p := below[p] + [leaf.box]][leaf.box := []];
    KidsProper(t, p);
    Single(leaf, below', words);
    Snoc(kids, leaf, below', words);
    RebuiltProper(t, p, ks);
    RebuiltSpine(t, p, ks);
    SameShapeAll(kids, below, below');
    RebuiltShape(t, p, ks, below, below');
    var kept := WordsAll(kids, words);
    assert kept + [] == kept && Words(t, words) + [] == Words(t, words);
    RebuiltWords(t, p, ks, words, words, kept, [], [], Words(t, words));
  }

  lemma Single(leaf: Tree, below: map<Box, seq<Box>>, words: map<Box, Leaf>)
    requires leaf.kids == [] && leaf.box in below && below[leaf.box] == []
    ensures Proper(leaf) && Boxes(leaf) == {leaf.box} && Shapes(leaf, below)
    ensures Words(leaf, words) == if leaf.box in words then [words[leaf.box]] else []
  {
  }

  // A new box around the last child of p.
  ghost function Grouped(e: Equation, p: Box, b: Box, info: Info): Equation
    requires OnSpine(e.tree, p) && KidsAt(e.tree, p) != [] && p in e.below && e.below[p] != []
    requires p in e.links && e.links[p].last != null && e.links[p].last in e.links
  {
    var kids, ls := KidsAt(e.tree, p), e.below[p];
    var n := |kids| - 1;
    e.(tree := Rebuilt(e.tree, p, kids[..n] + [Node(b, [kids[n]])]),
        below := e.below[p := ls[..|ls| - 1] + [b]][b := [ls[|ls| - 1]]],
       links := Grouping(e.links, p, b), infos := e.infos[b := info], lists := e.lists + if info.args == 0 then {b}
           else {})
  }

  lemma GroupedAt(e: Equation, p: Box, b: Box, info: Info, x: Box)
    requires OnSpine(e.tree, p) && KidsAt(e.tree, p) != [] && p in e.below && e.below[p] != [] && b !in e.links
    requires p in e.links && e.links[p].last != null && e.links[p].last in e.links && e.links[p].last != p
             && e.infos.Keys == e.links.Keys
    requires
      var c := e.links[p].last;
      var q := e.links[c].prev;
      q != null ==> q in e.links && q != p && q != c
    ensures
      var f := Grouped(e, p, b, info);
      && f.links.Keys == e.links.Keys + {b} && f.infos.Keys == f.links.Keys
      && (x in f.links ==>
            var at := e.links[p];
            var c := at.last;
            var q := e.links[c].prev;
            && f.links[x] == (if x == b then Ptrs(p, q, null, c, c)
                              else if x == p then at.(first := if q == null then b else at.first, last := b)
                              else if x == c then e.links[x].(parent := b, prev := null, next := null)
                              else if x == q then e.links[x].(next := b)
                              else e.links[x])
            && f.infos[x] == if x == b then info else e.infos[x])
  {
    hide Rebuilt, OnSpine, KidsAt;
  }

  lemma GroupedGood(e: Equation, p: Box, b: Box, info: Info)
    requires Good(e) && OnSpine(e.tree, p) && p in e.below && e.below[p] != [] && KidsAt(e.tree, p) != []
             && b !in e.below
    requires info.text == None && Fits(info)
    requires info.args == 1 || (info.args == 0 && info.kind == List && info.expectargs == None)
    requires p in e.links && e.links[p].last != null && e.links[p].last in e.links
    ensures
      var f := Grouped(e, p, b, info);
      && Good(f) && f.tree.box == e.tree.box && f.links.Keys == e.links.Keys + {b}
         && Words(f.tree, f.words) == Words(e.tree, e.words)
      && OnSpine(f.tree, b) && Chain(f.tree, b) == Chain(e.tree, p) + [b]
      && KidsAt(f.tree, b) == [KidsAt(e.tree, p)[|KidsAt(e.tree, p)| - 1]]
  {
    assert e.words.Keys <= e.below.Keys;
    hide Rebuilt, Words, Boxes, OnSpine, Chain, KidsAt, Shaped, Texts, Counted, Limits, Rooted;
    GroupedShaped(e, p, b, info);
    GroupedTexts(e, p, b, info);
    GroupedCounted(e, p, b, info);
    GroupedLimits(e, p, b, info);
  }

  lemma GroupedShaped(e: Equation, p: Box, b: Box, info: Info)
    requires Shaped(e) && OnSpine(e.tree, p) && p in e.below && e.below[p] != [] && KidsAt(e.tree, p) != []
             && b !in e.below && b !in e.words
    requires p in e.links && e.links[p].last != null && e.links[p].last in e.links
    ensures e.links[e.links[p].last].parent == p
    ensures
      var f := Grouped(e, p, b, info);
      && Shaped(f) && f.tree.box == e.tree.box && f.links.Keys == e.links.Keys + {b}
         && Words(f.tree, f.words) == Words(e.tree, e.words)
      && OnSpine(f.tree, b) && Chain(f.tree, b) == Chain(e.tree, p) + [b]
      && KidsAt(f.tree, b) == [KidsAt(e.tree, p)[|KidsAt(e.tree, p)| - 1]]
  {
    hide Rebuilt, Proper, Shapes, Words, Boxes, OnSpine, Chain, KidsAt, Linked, Inside, Grouping;
    GroupingLinked(e.below, e.links, p, b);
    SameKeys(e.below, e.links);
    SameKeys(Grouped(e, p, b, info).below, Grouping(e.links, p, b));
    Wrap(e.tree, p, b, e.below, e.words);
  }

  lemma GroupedTexts(e: Equation, p: Box, b: Box, info: Info)
    requires Texts(e) && OnSpine(e.tree, p) && KidsAt(e.tree, p) != [] && p in e.below && e.below[p] != []
             && b !in e.below
    requires info.text == None
    requires p in e.links && e.links[p].last != null && e.links[p].last in e.links
    ensures Texts(Grouped(e, p, b, info))
  {
    hide Rebuilt, OnSpine, KidsAt;
  }

  lemma GroupedCounted(e: Equation, p: Box, b: Box, info: Info)
    requires Texts(e) && Counted(e)
    requires OnSpine(e.tree, p) && KidsAt(e.tree, p) != [] && p in e.below && e.below[p] != [] && b !in e.below
    requires info.args == 1 || (info.args == 0 && info.kind == List && info.expectargs == None)
    requires p in e.links && e.links[p].last != null && e.links[p].last in e.links
    ensures
      var f := Grouped(e, p, b, info);
      f.infos.Keys == f.below.Keys && Counted(f)
  {
    hide Rebuilt, OnSpine, KidsAt;
  }

  lemma GroupedLimits(e: Equation, p: Box, b: Box, info: Info)
    requires Texts(e) && Limits(e) && Rooted(e)
    requires OnSpine(e.tree, p) && KidsAt(e.tree, p) != [] && p in e.below && e.below[p] != [] && b !in e.below
    requires Fits(info)
    requires p in e.links && e.links[p].last != null && e.links[p].last in e.links
    requires e.links[e.links[p].last].parent == p
    ensures
      var f := Grouped(e, p, b, info);
      Limits(f) && Rooted(f)
  {
    hide Rebuilt, OnSpine, KidsAt;
  }

  lemma Wrap(t: Tree, p: Box, b: Box, below: map<Box, seq<Box>>, words: map<Box, Leaf>)
    requires OnSpine(t, p) && Proper(t) && Shapes(t, below) && Boxes(t) == below.Keys && KidsAt(t, p) != []
             && p in below && below[p] != []
    requires b !in below && b !in words
    ensures
      var kids, ls := KidsAt(t, p), below[p];
      var n := |kids| - 1;
      var r := Rebuilt(t, p, kids[..n] + [Node(b, [kids[n]])]);
      && Proper(r) && Boxes(r) == Boxes(t) + {b} && Shapes(r, below[p := ls[..|ls| - 1] + [b]][b := [ls[|ls| - 1]]])
      && OnSpine(r, b) && Chain(r, b) == Chain(t, p) + [b] && KidsAt(r, b) == [kids[n]]
      && Words(r, words) == Words(t, words)
  {
    hide Rebuilt, Proper, ProperAll, Shapes, ShapesAll, WordsAll, Words, BoxesAll, OnSpine, Chain, KidsAt;
    var kids, ls := KidsAt(t, p), below[p];
    var n := |kids| - 1;
    var init, last := kids[..n], kids[n];
    assert kids == init + [last];
    var group := Node(b, [last]);
    var ks := init + [group];
    ShapeAt(t, p, below);
    SpineInside(t, p);
    KidsProper(t, p);
    var below' := below[p := ls[..|ls| - 1] + [b]][b := [ls[|ls| - 1]]];
    Snoc(init, last, below, words);
    SameShapeAll(init, below, below');
    SameShape(last, below, below');
    Only(b, last, below', words);
    Snoc(init, group, below', words);
    RebuiltProper(t, p, ks);
    RebuiltSpine(t, p, ks);
    RebuiltShape(t, p, ks, below, below');
    SpineDown(Rebuilt(t, p, ks), p);
    var kept := WordsAll(kids, words);
    assert kept + [] == kept && Words(t, words) + [] == Words(t, words);
    RebuiltWords(t, p, ks, words, words, kept, [], [], Words(t, words));
  }

  lemma Only(b: Box, last: Tree, below: map<Box, seq<Box>>, words: map<Box, Leaf>)
    requires Proper(last) && Shapes(last, below) && b in below && below[b] == [last.box] && b !in Boxes(last)
             && b !in words
    ensures
      var g := Node(b, [last]);
      Proper(g) && Boxes(g) == {b} + Boxes(last) && Shapes(g, below) && Words(g, words) == Words(last, words)
  {
    Snoc([], last, below, words);
    assert [] + [last] == [last];
    assert Tops([last]) == [last.box];
  }

  // New contents for b that keep its place in the counts.
  ghost function Filled(e: Equation, b: Box, info: Info): Equation {
    e.(infos := e.infos[b := info])
  }

  lemma FilledGood(e: Equation, b: Box, info: Info)
    requires Good(e) && b in e.infos && b != e.tree.box && info.args == e.infos[b].args && info.text == e.infos[b].text
    requires b in e.words ==> info.font == e.infos[b].font
    requires b in e.lists ==> info.kind == List && info.expectargs == None
    requires Fits(info)
    ensures Good(Filled(e, b, info))
  {
    hide Inside, Linked, Proper, Shapes, Boxes;
  }

  // The last child of p, without children.
  ghost predicate Newest(e: Equation, p: Box, b: Box) {
    OnSpine(e.tree, p) && KidsAt(e.tree, p) != [] && KidsAt(e.tree, p)[|KidsAt(e.tree, p)| - 1] == Node(b, [])
  }

  // A text for b.
  ghost function Labelled(e: Equation, b: Box, info: Info): Equation
    requires info.text.Some?
  {
    e.(words := e.words[b := Leaf(info.text.value, info.font)], infos := e.infos[b := info])
  }

  lemma LabelledGood(e: Equation, p: Box, b: Box, info: Info, base: seq<Leaf>)
    requires Good(e) && Newest(e, p, b)
    requires b in e.infos && b != e.tree.box && b !in e.lists && info.text.Some? && info.args == e.infos[b].args
    requires info.expectargs == None && info.pos == NoPos
    requires Words(e.tree, e.words) == base + if b in e.words then [e.words[b]] else []
    ensures
      var f := Labelled(e, b, info);
      Good(f) && Words(f.tree, f.words) == base + [Leaf(info.text.value, info.font)]
  {
    hide Inside, Linked, Proper, Shapes, Boxes, Words, KidsAt, OnSpine;
    LastLinks(e, p, b);
    LabelledPlain(e, b, info);
    hide Texts, Counted, Limits, Rooted;
    Relabel(e.tree, p, b, e.words, Leaf(info.text.value, info.font), base);
  }

  lemma LabelledPlain(e: Equation, b: Box, info: Info)
    requires Shaped(e) && Texts(e) && Counted(e) && Limits(e) && Rooted(e)
    requires b in e.infos && e.below[b] == [] && b != e.tree.box && b !in e.lists && info.text.Some?
             && info.args == e.infos[b].args
    requires info.expectargs == None && info.pos == NoPos
    ensures
      var f := Labelled(e, b, info);
      Shaped(f) && Texts(f) && Counted(f) && Limits(f) && Rooted(f)
  {
    hide Inside, Linked, Proper, Shapes, Boxes;
  }

  lemma LastLinks(e: Equation, p: Box, b: Box)
    requires Shaped(e) && Newest(e, p, b)
    ensures b in e.below && e.below[b] == []
  {
    SpineDown(e.tree, p);
    ShapeAt(e.tree, b, e.below);
  }

  lemma Relabel(t: Tree, p: Box, b: Box, words: map<Box, Leaf>, leaf: Leaf, base: seq<Leaf>)
    requires OnSpine(t, p) && Proper(t) && KidsAt(t, p) != [] && KidsAt(t, p)[|KidsAt(t, p)| - 1] == Node(b, [])
    requires Words(t, words) == base + if b in words then [words[b]] else []
    ensures Words(t, words[b := leaf]) == base + [leaf]
  {
    hide Rebuilt, Proper, ProperAll, WordsAll, Words, BoxesAll, OnSpine, KidsAt;
    var kids := KidsAt(t, p);
    var n := |kids| - 1;
    var init, words' := kids[..n], words[b := leaf];
    var was := if b in words then [words[b]] else [];
    assert kids == init + [Node(b, [])];
    KidsProper(t, p);
    Single(Node(b, []), map[b := []], words);
    Single(Node(b, []), map[b := []], words');
    Snoc(init, Node(b, []), map[], words);
    Snoc(init, Node(b, []), map[], words');
    SameWordsAll(init, words, words');
    RebuiltSame(t, p);
    RebuiltWords(t, p, kids, words, words', WordsAll(init, words), was, [leaf], base);
  }

  // The children of p as its links show them.
  lemma LinksOf(e: Equation, p: Box)
    requires Shaped(e) && p in e.below
    ensures p in e.links && (e.below[p] == [] <==> e.links[p].last == null)
            && (e.links[p].first == null <==> e.links[p].last == null)
    ensures
      e.below[p] != [] ==>
        var ks := e.below[p];
        var n := |ks| - 1;
        && e.links[p].last == ks[n] && ks[n] in e.links && ks[n] != p && e.links[ks[n]].parent == p
           && e.links[ks[n]].next == null
        && e.links[ks[n]].prev == (if n == 0 then null else ks[n - 1])
        && (n > 0 ==> ks[n - 1] in e.links && ks[n - 1] != p && ks[n - 1] != ks[n])
        && (e.links[p].first == e.links[p].last <==> n == 0)
  {
    var ks := e.below[p];
    assert Joined(p, ks, e.links);
    if |ks| > 1 {
      var a, b := ks[|ks| - 2], ks[|ks| - 1];
      assert e.links[b].prev == a;
    }
  }

  lemma KeysOf(e: Equation)
    requires Good(e)
    ensures e.below.Keys == e.links.Keys == e.infos.Keys && e.words.Keys <= e.links.Keys
  {
  }

  // There is something to be put into a new box.
  ghost predicate Operand(e: Equation, p: Box) {
    && OnSpine(e.tree, p) && KidsAt(e.tree, p) != [] && p in e.below && e.below[p] != [] && p in e.infos
    && p in e.links && e.links[p].last != null && e.links[p].last in e.links
  }

  lemma HasKids(e: Equation, p: Box)
    requires Shaped(e) && Texts(e) && OnSpine(e.tree, p) && p in e.below && e.below[p] != []
    ensures Operand(e, p)
  {
    ShapeAt(e.tree, p, e.below);
    LinksOf(e, p);
  }

  // The box above p.
  lemma StepUp(e: Equation, p: Box)
    requires Good(e) && OnSpine(e.tree, p)
    ensures p in e.links && p in e.infos && (p == e.tree.box <==> e.links[p].parent == null)
    ensures
      p != e.tree.box ==>
        var q := e.links[p].parent;
        && OnSpine(e.tree, q) && |Chain(e.tree, p)| >= 2
           && Chain(e.tree, q) == Chain(e.tree, p)[..|Chain(e.tree, p)| - 1]
        && q in e.links && q in e.infos && q !in e.words && e.below[q] != [] && e.links[q].last != null
  {
    ShapeAt(e.tree, p, e.below);
    if p != e.tree.box {
      SpineUp(e.tree, p);
      var c := Chain(e.tree, p);
      var q := c[|c| - 2];
      ShapeAt(e.tree, q, e.below);
      LinksOf(e, q);
    }
  }

  /*** the enclosing boxes ***********************************************************/

  // Where boxes can be added.
  ghost predicate Place(e: Equation, p: Box) {
    OnSpine(e.tree, p) && p in e.below && p in e.links && p in e.infos && p !in e.words
  }

  // The box now is the innermost one of the boxes was with the property f.
  ghost predicate Innermost(e: Equation, was: seq<Box>, now: Box, f: Info -> bool) {
    && Place(e, now) && Chain(e.tree, now) <= was && f(e.infos[now])
    && forall i :: |Chain(e.tree, now)| <= i < |was| ==> was[i] in e.infos && !f(e.infos[was[i]])
  }

  // No box has the property f.
  ghost predicate NoneOf(e: Equation, was: seq<Box>, f: Info -> bool) {
    forall i :: 0 <= i < |was| ==> was[i] in e.infos && !f(e.infos[was[i]])
  }

  // The box now is the innermost one of the boxes was without the property f.
  ghost predicate Passed(e: Equation, was: seq<Box>, now: Box, f: Info -> bool) {
    && Place(e, now) && Chain(e.tree, now) <= was && !f(e.infos[now])
    && forall i :: |Chain(e.tree, now)| <= i < |was| ==> was[i] in e.infos && f(e.infos[was[i]])
  }

  lemma StepPlace(e: Equation, p: Box)
    requires Good(e) && Place(e, p) && p != e.tree.box
    ensures e.links[p].parent != null
    ensures
      var q := e.links[p].parent;
      && Place(e, q) && e.below[q] != [] && |Chain(e.tree, p)| >= 2
      && Chain(e.tree, q) == Chain(e.tree, p)[..|Chain(e.tree, p)| - 1]
  {
    hide Shaped, Texts, OnSpine, Chain, Rooted, Limits, Counted;
    KeysOf(e);
    StepUp(e, p);
  }

  // The box around all others.
  lemma RootInfo(e: Equation)
    requires Good(e)
    ensures Place(e, e.tree.box)
    ensures var i := e.infos[e.tree.box]; i.expectargs == None && i.kind == Text && i.pos == NoPos
    ensures e.links[e.tree.box].parent == null
  {
  }

  lemma TopOf(e: Equation, p: Box)
    requires p == e.tree.box
    ensures OnSpine(e.tree, p) && Chain(e.tree, p) == [p]
  {
  }

  // Lists made by splitting words have two parts at least.
  ghost predicate Settled(e: Equation) {
    forall b :: b in e.lists ==> b in e.below && |e.below[b]| >= 2
  }

  ghost predicate SettledBut(e: Equation, p: Box) {
    forall b :: b in e.lists && b != p ==> b in e.below && |e.below[b]| >= 2
  }

  lemma AppendedSettled(e: Equation, p: Box, b: Box, info: Info)
    requires OnSpine(e.tree, p) && p in e.below && p in e.links && p in e.infos && b !in e.below && SettledBut(e, p)
    requires p in e.lists ==> e.below[p] != []
    ensures Settled(Appended(e, p, b, info))
  {
    hide OnSpine, KidsAt, Rebuilt;
  }

  lemma GroupedSettled(e: Equation, p: Box, b: Box, info: Info)
    requires Operand(e, p) && b !in e.below && Settled(e) && info.args != 0
    ensures Settled(Grouped(e, p, b, info))
  {
    hide OnSpine, KidsAt, Rebuilt;
  }

  // A box without children has room for one.
  lemma EmptyRoom(e: Equation, p: Box)
    requires Good(e) && p in e.infos && e.below[p] == []
    ensures HasRoom(e.infos[p])
  {
    hide Shaped, Rooted;
  }

  // Other places remain.
  lemma AppendedPlace(e: Equation, p: Box, b: Box, info: Info)
    requires Place(e, p) && b !in e.below && OnSpine(Appended(e, p, b, info).tree, p)
    ensures Place(Appended(e, p, b, info), p) && Appended(e, p, b, info).below[p] != []
  {
    hide OnSpine, KidsAt, Rebuilt;
  }

  // A new text box.
  lemma NewLeaf(e: Equation, p: Box, b: Box, info: Info, text: string)
    requires Good(e) && Place(e, p) && SettledBut(e, p) && b !in e.links && HasRoom(e.infos[p])
    requires info.text == None && info.args == 0 && info.expectargs == None && info.pos == NoPos
    ensures
      var f := Appended(e, p, b, info);
      var l := Labelled(f, b, info.(text := Some(text)));
      && Good(f) && b in f.infos && f.infos[b] == info && f.links.Keys == e.links.Keys + {b}
      && Good(l) && Place(l, p) && l.tree.box == e.tree.box && Settled(l) && l.below[p] != []
      && Words(l.tree, l.words) == Words(e.tree, e.words) + [Leaf(text, info.font)]
      && b in l.words && b !in l.lists && b in l.infos && b in l.links && l.infos[b] == info.(text := Some(text))
      && p in l.infos && l.infos[p] == e.infos[p].(args := e.infos[p].args + 1) && l.links.Keys == f.links.Keys
      && Newest(l, p, b) && Chain(l.tree, p) == Chain(e.tree, p)
         && KidsAt(l.tree, p) == KidsAt(e.tree, p) + [Node(b, [])]
      && l.links == Appended(e, p, b, info.(text := Some(text))).links
         && l.infos == Appended(e, p, b, info.(text := Some(text))).infos
  {
    hide Words, OnSpine, Chain, KidsAt, Rebuilt, Shaped, Texts, Counted, Limits, Rooted, HasRoom, Appended, Settled;
    hide SettledBut;
    KeysOf(e);
    AppendedGood(e, p, b, info);
    KnowsLast(e, p);
    RootInfo(e);
    ListsKnown(e);
    AppendedAt(e, p, b, info, b);
    AppendedAt(e, p, b, info, p);
    AppendedSettled(e, p, b, info);
    AppendedPlace(e, p, b, info);
    AppendedRest(e, p, b, info);
    AppendedAgain(e, p, b, info, info.(text := Some(text)));
    LabelledGood(Appended(e, p, b, info), p, b, info.(text := Some(text)), Words(e.tree, e.words));
    LabelledSettled(Appended(e, p, b, info), b, info.(text := Some(text)));
  }

  lemma KnowsLast(e: Equation, p: Box)
    requires Good(e) && p in e.below
    ensures p in e.links && (e.links[p].last != null ==> e.links[p].last in e.links && e.links[p].last != p)
  {
    LinksOf(e, p);
  }

  lemma AppendedRest(e: Equation, p: Box, b: Box, info: Info)
    requires Place(e, p)
    ensures Appended(e, p, b, info).lists == e.lists && Appended(e, p, b, info).words == e.words
  {
  }

  lemma LabelledSettled(e: Equation, b: Box, info: Info)
    requires Settled(e) && info.text.Some?
    ensures Settled(Labelled(e, b, info))
  {
  }

  lemma ListsKnown(e: Equation)
    requires Good(e)
    ensures e.lists <= e.infos.Keys && forall b :: b in e.lists ==> e.below[b] != []
  {
    hide Shaped, Limits, Rooted;
  }

  // The new box as the place for more.
  lemma AppendedInner(e: Equation, p: Box, b: Box, info: Info)
    requires Good(e) && Place(e, p) && b !in e.links && HasRoom(e.infos[p]) && info.text == None && info.args == 0
             && Fits(info)
    ensures
      var f := Appended(e, p, b, info);
      Good(f) && Place(f, b) && Chain(f.tree, b) == Chain(e.tree, p) + [b] && f.below[b] == [] && f.infos[b] == info
  {
    hide Words, OnSpine, Chain, KidsAt, Rebuilt, Texts, Counted, Limits, Rooted, HasRoom, Appended, Linked, Inside;
    hide Shapes, Proper, Boxes;
    KeysOf(e);
    KnowsLast(e, p);
    AppendedGood(e, p, b, info);
    var f := Appended(e, p, b, info);
    AppendedAt(e, p, b, info, b);
    AppendedRest(e, p, b, info);
    KeysOf(f);
    SpineDown(f.tree, p);
    LastLinks(f, p, b);
  }

  lemma GroupedInner(e: Equation, p: Box, b: Box, info: Info)
    requires Good(e) && Place(e, p) && Operand(e, p) && b !in e.links && info.text == None && info.args == 1
             && Fits(info)
    ensures
      var f := Grouped(e, p, b, info);
      && Good(f) && Place(f, b) && Place(f, p) && Chain(f.tree, b) == Chain(e.tree, p) + [b]
         && Chain(f.tree, p) == Chain(e.tree, p)
      && f.below[b] == [e.links[p].last] && f.infos[b] == info && f.below[p] != [] && f.links[b].parent == p
         && f.links[p].last == b
  {
    hide Words, OnSpine, Chain, KidsAt, Rebuilt, Texts, Counted, Limits, Rooted, Linked, Inside, Shapes, Proper;
    hide Boxes, Grouped;
    KeysOf(e);
    LinksOf(e, p);
    GroupedGood(e, p, b, info);
    var f := Grouped(e, p, b, info);
    GroupedAt(e, p, b, info, b);
    GroupedAt(e, p, b, info, p);
    KeysOf(f);
    GroupedBelow(e, p, b, info);
    StepUp(f, b);
  }

  lemma GroupedBelow(e: Equation, p: Box, b: Box, info: Info)
    requires Operand(e, p)
    ensures
      var f, ks := Grouped(e, p, b, info), e.below[p];
      f.words == e.words && f.tree.box == e.tree.box && f.below[b] == [ks[|ks| - 1]]
          && (b != p ==> f.below[p] == ks[..|ks| - 1] + [b])
      && f.lists == e.lists + (if info.args == 0 then {b} else {})
  {
    hide OnSpine, KidsAt, Rebuilt;
  }

  predicate Full(i: Info) {
    i.expectargs.Some? && i.args == i.expectargs.value
  }

  lemma NotFull(e: Equation, p: Box)
    requires Good(e) && p in e.infos && !Full(e.infos[p])
    ensures HasRoom(e.infos[p])
  {
    hide Shaped, Texts, Counted, Rooted;
  }

  lemma FilledRest(e: Equation, b: Box, info: Info)
    ensures
      var f := Filled(e, b, info);
      && f.tree == e.tree && f.below == e.below && f.links == e.links && f.words == e.words && f.lists == e.lists
      && (forall x :: Place(e, x) ==> Place(f, x))
  {
    hide OnSpine;
  }

  // The first script may get a second one.
  lemma Upgradable(e: Equation, b: Box, pos: Pos)
    requires Good(e) && b in e.infos && e.infos[b].pos in {Sub, From} && pos in {SubSup, FromTo}
    ensures b !in e.lists && b != e.tree.box && Fits(e.infos[b].(expectargs := Some(3), pos := pos))
  {
    hide Shaped;
  }

  lemma Fenced(e: Equation, b: Box, fence: string)
    requires Good(e) && b in e.infos
    ensures
      var info := e.infos[b].(right := Some(fence));
      Fits(info) && (b in e.lists ==> info.kind == List && info.expectargs == None)
  {
    hide Shaped, Rooted;
  }

  // The last text box gets another text.
  lemma Retexted(e: Equation, p: Box, b: Box, info: Info, base: seq<Leaf>, was: Leaf)
    requires Good(e) && Place(e, p) && Newest(e, p, b)
    requires Words(e.tree, e.words) == base + [was] && b in e.words && b !in e.lists
    requires b in e.infos && info == e.infos[b].(text := info.text, font := info.font) && info.text.Some?
    requires info.expectargs == None && info.pos == NoPos
    ensures
      var f := Labelled(e, b, info);
      && Good(f) && Words(f.tree, f.words) == base + [Leaf(info.text.value, info.font)]
      && Place(f, p) && (Settled(e) ==> Settled(f)) && f.infos[b] == info && e.words[b] == was
  {
    hide OnSpine, KidsAt, Words, Shaped, Texts, Counted, Limits;
    LastWord(e, p, b, base, was);
    NotRoot(e, p, b);
    LabelledGood(e, p, b, info, base);
  }

  lemma NotRoot(e: Equation, p: Box, b: Box)
    requires Good(e) && Place(e, p) && Newest(e, p, b)
    requires b in e.words
    ensures b != e.tree.box
  {
    hide OnSpine, KidsAt, Shaped, Counted, Limits;
  }

  // The last word is the text of the last box.
  lemma LastWord(e: Equation, p: Box, b: Box, base: seq<Leaf>, was: Leaf)
    requires Good(e) && Place(e, p) && Newest(e, p, b)
    requires Words(e.tree, e.words) == base + [was] && b in e.words
    ensures e.words[b] == was
  {
    hide OnSpine, Shaped, Texts, Counted, Limits, Rooted, Proper, Boxes, Shapes;
    var kids := KidsAt(e.tree, p);
    var n := |kids| - 1;
    Single(Node(b, []), map[b := []], e.words);
    Snoc(kids[..n], kids[n], map[], e.words);
    assert kids == kids[..n] + [kids[n]];
    WordsEnd(e.tree, p, e.words, WordsAll(kids[..n], e.words), [e.words[b]]);
    assert Words(e.tree, e.words)[|Words(e.tree, e.words)| - 1..] == [was];
  }

  // A list around the last text box.
  lemma ListInner(e: Equation, p: Box, cur: Box, b: Box, info: Info)
    requires Good(e) && Place(e, p) && Newest(e, p, cur)
    requires Operand(e, p) && b !in e.links && info.text == None && info.args == 0 && info.kind == List
             && info.expectargs == None && info.pos == NoPos
    requires Settled(e) && cur !in e.lists
    ensures
      var f := Grouped(e, p, b, info);
      && Good(f) && Place(f, b) && SettledBut(f, b) && Chain(f.tree, b) == Chain(e.tree, p) + [b]
      && KidsAt(f.tree, b) == [Node(cur, [])] && f.infos[b] == info && f.words == e.words
      && Words(f.tree, f.words) == Words(e.tree, e.words) && f.links[b].parent == p
      && f.tree.box == e.tree.box && f.links.Keys == e.links.Keys + {b}
  {
    hide Words, OnSpine, Chain, KidsAt, Rebuilt, Texts, Counted, Limits, Rooted, Linked, Inside, Shapes, Proper;
    hide Boxes, Grouped;
    KeysOf(e);
    LinksOf(e, p);
    GroupedGood(e, p, b, info);
    var f := Grouped(e, p, b, info);
    GroupedAt(e, p, b, info, b);
    KeysOf(f);
    GroupedBelow(e, p, b, info);
    LastLinks(e, p, cur);
    ListSettled(e, p, b, info);
  }

  lemma ListSettled(e: Equation, p: Box, b: Box, info: Info)
    requires Operand(e, p) && b !in e.below && Settled(e)
    ensures SettledBut(Grouped(e, p, b, info), b)
  {
    hide OnSpine, KidsAt, Rebuilt;
  }

  lemma SettledWeak(e: Equation, p: Box)
    requires Settled(e)
    ensures SettledBut(e, p) && (p in e.lists ==> p in e.below && e.below[p] != [])
  {
  }

  lemma LastBelow(e: Equation, p: Box, cur: Box)
    requires Good(e) && Place(e, p) && Newest(e, p, cur)
    ensures Operand(e, p) && e.below[p][|e.below[p]| - 1] == cur && e.links[p].last == cur && cur in e.links
            && cur in e.infos
  {
    hide OnSpine, Limits, Rooted, Counted, Linked, Inside;
    ShapeAt(e.tree, p, e.below);
    LinksOf(e, p);
  }

  lemma AppendedAgain(e: Equation, p: Box, b: Box, info: Info, now: Info)
    requires Place(e, p)
    ensures
      var f, g := Appended(e, p, b, info), Appended(e, p, b, now);
      f.links == g.links && f.infos[b := now] == g.infos
  {
    hide OnSpine, KidsAt, Rebuilt;
  }

  lemma GroupedAgain(e: Equation, p: Box, b: Box, info: Info, now: Info)
    requires Operand(e, p) && info.args == now.args
    ensures
      var f, g := Grouped(e, p, b, info), Grouped(e, p, b, now);
      f.links == g.links && f.infos[b := now] == g.infos
  {
    hide OnSpine, KidsAt, Rebuilt;
  }

  lemma OperandLinks(e: Equation, p: Box)
    requires Good(e) && Operand(e, p)
    ensures
      var c := e.links[p].last;
      var q := e.links[c].prev;
      c != p && (q != null ==> q in e.links && q != p && q != c)
  {
    LinksOf(e, p);
  }
}
