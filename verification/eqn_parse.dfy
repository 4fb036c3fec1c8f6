// Parsing an equation into a tree of boxes: eqn_parse() in
// userland/mandoc/eqn.c.
module EqnParse {
  import opened Options
  import opened EqnTree
  import opened EqnState
  import opened EqnShape
  import opened EqnWords
  import Escape

  /*** linking boxes *************************************************************/

  ghost function Only(b: Box?): set<Box> {
    if b == null then {} else {b}
  }

  // eqn_box_alloc()
  method BoxAlloc(parent: Box, size: int, ghost last: Box?) returns (bp: Box)
    requires parent.last == last && last != parent && (parent.first == null <==> last == null)
    modifies parent`info, parent`first, parent`last, Only(last)`next
    ensures fresh(bp) && bp.info == NEWBOX.(font := old(parent.info.font), size := size)
    ensures bp.Links() == Ptrs(parent, last, null, null, null)
    ensures parent.info == old(parent.info).(args := old(parent.info.args) + 1) && parent.last == bp
    ensures parent.first == if last == null then bp else old(parent.first)
    ensures last != null ==> last.next == bp
  {
    bp := new Box();
    bp.parent := parent;
    bp.parent.info := bp.parent.info.(args := bp.parent.info.args + 1);
    bp.info := bp.info.(font := bp.parent.info.font, size := size);
    if parent.first != null {
      parent.last.next := bp;
      bp.prev := parent.last;
    } else {
      parent.first := bp;
    }
    parent.last := bp;
  }

  // eqn_box_makebinary()
  method BoxMakeBinary(parent: Box, size: int, ghost last: Box, ghost prev: Box?) returns (newb: Box)
    requires parent.last == last && last.prev == prev && last != parent && prev != parent && prev != last
    requires parent.first != null && (parent.first == last <==> prev == null)
    modifies parent`info, parent`first, parent`last, Only(prev)`next, last`next, last`prev, last`parent
    ensures fresh(newb)
    ensures newb.info == Binary(old(parent.info.font), size)
    ensures newb.Links() == Ptrs(parent, prev, null, last, last)
    ensures parent.info == old(parent.info) && parent.last == newb
    ensures parent.first == if prev == null then newb else old(parent.first)
    ensures last.parent == newb && last.prev == null && last.next == null
    ensures prev != null ==> prev.next == newb
  {
    var b := parent.last;
    if parent.last == parent.first {
      parent.first := null;
    }
    parent.info := parent.info.(args := parent.info.args - 1);
    parent.last := b.prev;
    b.prev := null;
    newb := BoxAlloc(parent, size, prev);
    newb.info := newb.info.(kind := Subexpr, expectargs := Some(2), args := 1);
    newb.first, newb.last := b, b;
    newb.first.next := null;
    b.parent := newb;
  }

  // Put the last child of parent into a list: part of eqn_parse().
  method BoxMakeList(parent: Box, cur: Box, size: int, ghost prev: Box?) returns (split: Box)
    requires parent.last == cur && cur.prev == prev && cur != parent && prev != parent && prev != cur
             && cur.next == null
    requires parent.first != null && (parent.first == cur <==> prev == null)
    modifies parent`info, parent`first, parent`last, Only(prev)`next, cur`prev, cur`parent
    ensures fresh(split)
    ensures split.info == NEWBOX.(font := old(parent.info.font), size := size, kind := List)
    ensures split.Links() == Ptrs(parent, prev, null, cur, cur)
    ensures parent.info == old(parent.info) && parent.last == split
    ensures parent.first == if prev == null then split else old(parent.first)
    ensures cur.parent == split && cur.prev == null && cur.next == null
    ensures prev != null ==> prev.next == split
  {
    if cur.prev == null {
      parent.first := cur.next;
    } else {
      cur.prev.next := null;
    }
    parent.last := cur.prev;
    parent.info := parent.info.(args := parent.info.args - 1);
    split := BoxAlloc(parent, size, prev);
    split.info := split.info.(kind := List);
    split.first, split.last := cur, cur;
    cur.parent := split;
    cur.prev := null;
  }

  /*** tokens *********************************************************************/

  datatype Accent = Dyad | Vec | Under | Bar | Tilde | Hat | Dot | DotDot

  // What is put above and below the operand.
  function Above(a: Accent): Option<string> {
    match a
    case DotDot => Some("\\[ad]")
    case Vec => Some("\\[->]")
    case Dyad => Some("\\[<>]")
    case Tilde => Some("\\[a~]")
    case Bar => Some("\\[rn]")
    case Dot => Some("\\[a.]")
    case Hat => Some("\\[ha]")
    case Under => None
  }

  function Below(a: Accent): Option<string> {
    if a.Under? then Some("\\[ul]") else None
  }

  function LeftFence(s: string): string {
    if s == "ceiling" then "\\[lc]" else if s == "floor" then "\\[lf]" else s
  }

  function RightFence(s: string): string {
    if s == "ceiling" then "\\[rc]" else if s == "floor" then "\\[rf]" else s
  }

  // What eqn_next() reports, together with the arguments that eqn_parse()
  // reads; an argument is None if it is missing or not a number.
  datatype Token =
    | Idle
    | Diacritic(accent: Accent)
    | Style(font: Font)
    | Size(size: Option<int>) | GlobalSize(size: Option<int>)
    | Script(pos: Pos)
    | Root | Fraction
    | Left(fence: Option<string>) | BraceOpen
    | Right(fence: Option<string>) | BraceClose
    | Column | Next | Columns
    | Func(text: string) | Quoted(text: string) | Symbol(text: string) | Word(text: string)

  predicate Alone(i: Info) {
    i.expectargs == Some(1) && i.args == 1
  }

  predicate IsSubexpr(i: Info) {
    i.kind == Subexpr
  }

  predicate IsPile(i: Info) {
    i.kind == Pile
  }

  predicate InPosition(i: Info) {
    i.pos in {Sub, Sup, SubSup, Sqrt, Over}
  }

  predicate IsBrace(i: Info) {
    i.kind == List && (i.expectargs.Some? ==> i.expectargs.value > 1)
  }

  predicate IsFence(i: Info) {
    IsBrace(i) && i.left.Some?
  }

  function Closer(brace: bool): Info -> bool {
    if brace then IsBrace else IsFence
  }

  predicate SingleList(i: Info) {
    i.kind == List && Alone(i)
  }

  // From and to leave the innermost box with a position.
  ghost predicate LeftPosition(e: Equation, was: Box, now: Box) {
    Place(e, was) && Place(e, now) &&
    if NoneOf(e, Chain(e.tree, was), InPosition) then now == was
    else exists c :: c in e.links && Innermost(e, Chain(e.tree, was), c, InPosition) && e.links[c].parent == now
  }

  // What a script makes of the box p: a third argument if it belongs to a
  // script already there, or else an operator for its last child.
  ghost predicate Scripted(e: Equation, p: Box, tok: Pos, size: int, f: Equation, b: Box) {
    Place(e, p) &&
    if tok == Sup && e.infos[p].pos == Sub then b == p
        && f == Filled(e, p, e.infos[p].(expectargs := Some(3), pos := SubSup))
    else if tok == To && e.infos[p].pos == From then b == p
        && f == Filled(e, p, e.infos[p].(expectargs := Some(3), pos := FromTo))
    else Operand(e, p) && b !in e.links && f == Grouped(e, p, b, Operator(e.infos[p].font, size, tok))
  }

  function Operator(font: Font, size: int, pos: Pos): Info {
    Binary(font, size).(pos := pos)
  }

  lemma OperatorFits(font: Font, size: int, pos: Pos)
    ensures Fits(Operator(font, size, pos))
  {
  }

  // The box cur is closed, for braces with a pile or matrix around it, and
  // also the lists around it that only consist of it.
  ghost predicate ClosedAt(e: Equation, cur: Box, brace: bool, now: Box) {
    Place(e, cur) && Place(e, now) &&
    var was := Chain(e.tree, cur);
    var n := |was| - 2;
    n >= 0 && was[n] in e.infos &&
    var m := if brace && e.infos[was[n]].kind in {Pile, Matrix} then n - 1 else n;
    m >= 0 && Passed(e, was[..m + 1], now, SingleList)
  }

  // A box as it is made for a text.
  ghost predicate TextBox(e: Equation, b: Box) {
    b in e.words && b !in e.lists && b in e.infos && b in e.links && e.infos[b].expectargs == None
        && e.infos[b].pos == NoPos
  }

  // Tokens that lead to a box further out.
  predicate Closes(tok: Token) {
    tok.Left? || tok.Right? || tok.BraceClose? || tok.Next?
  }

  predicate IsText(tok: Token) {
    tok.Func? || tok.Quoted? || tok.Symbol? || tok.Word?
  }

  function TextOf(tok: Token): string {
    if IsText(tok) then tok.text else []
  }

  // The text boxes for a token inside of a box with this font.
  function Leaves(tok: Token, font: Font): Option<seq<Leaf>>
    requires IsText(tok) && '\0' !in tok.text
  {
    match tok
    case Func(s) => Some([Leaf(s, Roman)])
    case Quoted(s) => Some([Leaf(s, if font == NoFont then Italic else font)])
    case Symbol(s) => Some([Leaf(s, font)])
    case Word(s) => if font != NoFont || s == [] then Some([Leaf(s, font)]) else Pieces(s)
  }

  lemma LeavesJoin(tok: Token, font: Font)
    requires IsText(tok) && '\0' !in tok.text
    ensures Leaves(tok, font).Some? ==> Concat(Leaves(tok, font).value) == tok.text
    ensures Escape.DeviceOnly(tok.text) ==> Leaves(tok, font).Some?
  {
    hide Pieces, Escape.DeviceOnly, Concat;
    if tok.Word? && font == NoFont && tok.text != [] {
      if Pieces(tok.text).Some? {
        PiecesJoin(tok.text);
      }
      if Escape.DeviceOnly(tok.text) {
        PiecesSucceed(tok.text);
      }
    } else {
      ConcatOne(Leaves(tok, font).value[0]);
      assert Leaves(tok, font).value == [Leaves(tok, font).value[0]];
    }
  }

  // Tokens that begin a box for what follows, and what this box is.
  predicate Nests(tok: Token) {
    || tok.Style? || (tok.Size? && tok.size.Some?) || tok.Root? || tok.BraceOpen? || (tok.Left? && tok.fence.Some?)
    || tok.Column? || tok.Columns?
  }

  function Nested(tok: Token, i: Info): Info {
    match tok
    case Style(f) => i.(kind := List, expectargs := Some(1), font := f)
    case Size(Some(n)) => i.(kind := List, expectargs := Some(1), size := n)
    case Root => i.(kind := Subexpr, expectargs := Some(1), pos := Sqrt)
    case BraceOpen => i.(kind := List)
    case Left(Some(f)) => i.(kind := List, left := Some(LeftFence(f)))
    case Column => i.(kind := Pile, expectargs := Some(1))
    case Columns => i.(kind := Matrix, expectargs := Some(1))
    case _ => i
  }

  // The box x with a text is new behind the children of p.
  ghost predicate Lettered(e: Equation, p: Box, size: int, text: string, font: Font, f: Equation, x: Box)
    requires Place(e, p)
  {
    var info := NEWBOX.(font := e.infos[p].font, size := size);
    x !in e.links && f == Labelled(Appended(e, p, x, info), x, info.(text := Some(text), font := font))
  }

  lemma LetteredFirst(e: Equation, p: Box, size: int, text: string, f: Equation, x: Box)
    requires Place(e, p)
    requires
      var info := NEWBOX.(font := e.infos[p].font, size := size);
      x !in e.links && f == Labelled(Appended(e, p, x, info), x, info.(text := Some(text)))
    ensures Lettered(e, p, size, text, e.infos[p].font, f, x)
  {
    hide OnSpine, Rebuilt, KidsAt, Appending;
    assert f.words[x := f.words[x]] == f.words && f.infos[x := f.infos[x]] == f.infos;
  }

  // An empty text was put into p if it had been empty.
  ghost predicate Supplied(e: Equation, p: Box, size: int, mid: Equation) {
    && Place(e, p) && Place(mid, p) && Chain(mid.tree, p) == Chain(e.tree, p) && mid.below[p] != []
    && (if e.below[p] != [] then mid == e
        else exists x :: x in mid.links && Lettered(e, p, size, "", e.infos[p].font, mid, x))
    && Words(mid.tree, mid.words) == Words(e.tree, e.words) + if e.below[p] == [] then [Leaf("", e.infos[p].font)]
       else []
  }

  function Accented(a: Accent, size: int): Info {
    NEWBOX.(size := size, kind := List, expectargs := Some(1), args := 1, font := Roman, top := Above(a),
        bottom := Below(a))
  }

  lemma AccentedFits(a: Accent, size: int)
    ensures Fits(Accented(a, size))
  {
  }

  // What one token does to the equation e with the place p: it becomes f, and
  // b is the place. The operand is supplied in mid, the box s is reached in
  // the first place, and the box q changes.
  ghost predicate Effect(tok: Token, e: Equation, p: Box, size: int, mid: Equation, s: Box?, q: Box?, f: Equation,
      b: Box)
    requires '\0' !in TextOf(tok)
  {
    && Place(e, p)
    && if IsText(tok) then
         && q != null && Passed(e, Chain(e.tree, p), q, Full) && b == q && OnSpine(f.tree, b)
            && Chain(f.tree, b) == Chain(e.tree, q)
         && Leaves(tok, e.infos[q].font).Some?
         && Leaves(tok, e.infos[q].font).value != []
         && FramesOf(f, b) == Worded(FramesOf(e, q), Leaves(tok, e.infos[q].font).value, size)
         && Words(f.tree, f.words) == Words(e.tree, e.words) + Leaves(tok, e.infos[q].font).value
       else if Nests(tok) then
         && q != null && Passed(e, Chain(e.tree, p), q, Full) && b !in e.links
         && f == Appended(e, q, b, Nested(tok, NEWBOX.(font := e.infos[q].font, size := size)))
       else
         match tok
         case Diacritic(a) =>
           && Supplied(e, p, size, mid) && b == p && q != null && q !in mid.links && Operand(mid, p)
           && f == Grouped(mid, p, q, Accented(a, size))
         case Script(pos) =>
           && Supplied(e, p, size, mid) && s != null && q != null && Passed(mid, Chain(mid.tree, p), s, Alone)
           && (if pos in {From, To} then LeftPosition(mid, s, q) else q == s)
           && Scripted(mid, q, pos, size, f, b)
         case Fraction =>
           && Supplied(e, p, size, mid) && s != null && q != null
           && Passed(mid, Chain(mid.tree, p), s, Full) && Passed(mid, Chain(mid.tree, s), q, IsSubexpr)
           && Operand(mid, q) && b !in mid.links && f == Grouped(mid, q, b, Operator(mid.infos[q].font, size, Over))
         case Left(_) => f == e && Passed(e, Chain(e.tree, p), b, Full)
         case Right(fence) => Closing(e, p, false, fence, q, f, b)
         case BraceClose => Closing(e, p, true, None, q, f, b)
         case Next =>
           if q == null then NoneOf(e, Chain(e.tree, p), IsPile) && f == e && b == p
           else
             && Innermost(e, Chain(e.tree, p), q, IsPile) && b !in e.links
             && f == Appended(e, q, b, NEWBOX.(font := e.infos[q].font, size := size, kind := List))
         case _ => f == e && b == p
  }

  // The innermost box that the token ends is closed.
  ghost predicate Closing(e: Equation, p: Box, brace: bool, fence: Option<string>, q: Box?, f: Equation, b: Box)
    requires Place(e, p)
  {
    if q == null then NoneOf(e, Chain(e.tree, p), Closer(brace)) && f == e && b == p
    else
      && Innermost(e, Chain(e.tree, p), q, Closer(brace))
      && if brace then f == e && ClosedAt(f, q, brace, b)
         else if fence.None? then f == e && b == q
         else f == Filled(e, q, e.infos[q].(right := Some(RightFence(fence.value)))) && ClosedAt(f, q, brace, b)
  }

  /*** the parser *****************************************************************/

  // The boxes in memory.
  ghost predicate Holds(e: Equation)
    reads e.links.Keys
  {
    && e.infos.Keys == e.links.Keys
    && forall b :: b in e.links ==> b.Links() == e.links[b] && b.info == e.infos[b]
  }

  // A new box behind the children of p.
  method PlainBox(ghost e: Equation, p: Box, size: int) returns (b: Box, ghost info: Info)
    requires Good(e) && Holds(e) && OnSpine(e.tree, p) && p in e.infos && p in e.below
    modifies e.links.Keys
    ensures fresh(b) && b !in e.links && p in e.links && info == NEWBOX.(font := e.infos[p].font, size := size)
    ensures Holds(Appended(e, p, b, info))
  {
    hide Rebuilt, OnSpine, KidsAt, Shaped, Texts, Counted, Limits, Rooted, Appended;
    KeysOf(e);
    LinksOf(e, p);
    b := BoxAlloc(p, size, e.links[p].last);
    info := b.info;
    ghost var f := Appended(e, p, b, info);
    AppendedAt(e, p, b, info, p);
    forall x | x in f.links
      ensures x.Links() == f.links[x] && x.info == f.infos[x]
    {
      AppendedAt(e, p, b, info, x);
    }
  }

  method AddBox(ghost e: Equation, p: Box, size: int, change: Info -> Info) returns (b: Box, ghost info: Info)
    requires Good(e) && Holds(e) && Place(e, p)
    modifies e.links.Keys
    ensures fresh(b) && b !in e.links && info == change(NEWBOX.(font := e.infos[p].font, size := size))
    ensures Holds(Appended(e, p, b, info))
  {
    hide OnSpine, Good, Appended, Holds;
    KeysOf(e);
    KnowsLast(e, p);
    ghost var was;
    b, was := PlainBox(e, p, size);
    info := change(was);
    AppendedAgain(e, p, b, was, info);
    AppendedAt(e, p, b, was, b);
    InfoOf(Appended(e, p, b, was), b);
    FillBox(Appended(e, p, b, was), b, change(b.info));
    HoldsToo(Filled(Appended(e, p, b, was), b, info), Appended(e, p, b, info));
  }

  method AddText(ghost e: Equation, p: Box, size: int, text: string) returns (b: Box, ghost f: Equation)
    requires Good(e) && Holds(e) && Place(e, p) && SettledBut(e, p) && HasRoom(e.infos[p])
    modifies e.links.Keys
    ensures fresh(b) && b !in e.links && Holds(f)
    ensures
      var info := NEWBOX.(font := e.infos[p].font, size := size);
      f == Labelled(Appended(e, p, b, info), b, info.(text := Some(text)))
  {
    hide OnSpine, Good, Holds, SettledBut, HasRoom, Appended;
    KeysOf(e);
    ghost var info, full := NEWBOX.(font := e.infos[p].font, size := size), NEWBOX;
    b, full := AddBox(e, p, size, (i: Info) => i.(text := Some(text)));
    AppendedAgain(e, p, b, info, full);
    f := Labelled(Appended(e, p, b, info), b, full);
    HoldsToo(Appended(e, p, b, full), f);
  }

  // A new box around the last child of p, as the source makes it for
  // operators and for words.
  method PlainGroup(ghost e: Equation, p: Box, size: int) returns (b: Box, ghost info: Info)
    requires Good(e) && Holds(e) && Place(e, p) && Operand(e, p)
    modifies e.links.Keys
    ensures fresh(b) && b !in e.links
    ensures info == Binary(e.infos[p].font, size)
    ensures Holds(Grouped(e, p, b, info))
  {
    hide Rebuilt, OnSpine, KidsAt, Shaped, Texts, Counted, Limits, Rooted, Grouped;
    KeysOf(e);
    LinksOf(e, p);
    b := BoxMakeBinary(p, size, e.links[p].last, e.links[e.links[p].last].prev);
    info := b.info;
    ghost var f := Grouped(e, p, b, info);
    GroupedAt(e, p, b, info, p);
    forall x | x in f.links
      ensures x.Links() == f.links[x] && x.info == f.infos[x]
    {
      GroupedAt(e, p, b, info, x);
    }
  }

  method GroupBox(ghost e: Equation, p: Box, size: int, change: Info -> Info) returns (b: Box, ghost info: Info)
    requires Good(e) && Holds(e) && Place(e, p) && Operand(e, p)
    requires change(Binary(e.infos[p].font, size)).args == 1
    modifies e.links.Keys
    ensures fresh(b) && b !in e.links
    ensures info == change(Binary(e.infos[p].font, size))
    ensures Holds(Grouped(e, p, b, info))
  {
    hide OnSpine, Good, Grouped, Holds, KidsAt;
    KeysOf(e);
    OperandLinks(e, p);
    ghost var was;
    b, was := PlainGroup(e, p, size);
    info := change(was);
    GroupedAgain(e, p, b, was, info);
    GroupedAt(e, p, b, was, b);
    InfoOf(Grouped(e, p, b, was), b);
    FillBox(Grouped(e, p, b, was), b, change(b.info));
    HoldsToo(Filled(Grouped(e, p, b, was), b, info), Grouped(e, p, b, info));
  }

  method ListBox(ghost e: Equation, p: Box, cur: Box, size: int) returns (b: Box, ghost info: Info)
    requires Good(e) && Holds(e) && Place(e, p) && Operand(e, p) && cur == e.links[p].last
    modifies e.links.Keys
    ensures fresh(b) && b !in e.links && p in e.links && e.links[p].last == cur && cur in e.links
    ensures info == NEWBOX.(font := e.infos[p].font, size := size, kind := List)
    ensures Holds(Grouped(e, p, b, info))
  {
    hide Rebuilt, OnSpine, KidsAt, Shaped, Texts, Counted, Limits, Rooted, Grouped;
    LinksOf(e, p);
    b := BoxMakeList(p, cur, size, e.links[cur].prev);
    info := b.info;
    ghost var f := Grouped(e, p, b, info);
    GroupedAt(e, p, b, info, p);
    forall x | x in f.links
      ensures x.Links() == f.links[x] && x.info == f.infos[x]
    {
      GroupedAt(e, p, b, info, x);
      if x != b && x != p {
        assert x in e.links;
      }
    }
  }

  // New contents for a box.
  method FillBox(ghost e: Equation, b: Box, info: Info)
    requires Holds(e) && b in e.links && b in e.infos
    modifies b
    ensures Holds(Filled(e, b, info)) && (info.text.Some? ==> Holds(Labelled(e, b, info)))
  {
    b.info := info;
  }

  lemma HoldsToo(e: Equation, f: Equation)
    requires Holds(e) && e.links == f.links && e.infos == f.infos
    ensures Holds(f)
  {
  }

  lemma InfoOf(e: Equation, b: Box)
    requires Holds(e) && b in e.links
    ensures b.info == e.infos[b] && b.Links() == e.links[b]
  {
  }

  class Parser {
    const root: Box
    var parent: Box
    var gsize: int
    ghost var eq: Equation

    ghost predicate Sound()
      reads this, eq.links.Keys
    {
      Good(eq) && Holds(eq) && eq.tree.box == root
    }

    ghost predicate Valid()
      reads this, eq.links.Keys
    {
      Sound() && Place(eq, parent) && Settled(eq)
    }

    constructor (gsize: int)
      ensures Valid() && fresh(eq.links.Keys) && eq.tree == Node(root, []) && Words(eq.tree, eq.words) == []
              && parent == root && eq.infos == map[root := NEWBOX]
      ensures this.gsize == gsize
    {
      var b := new Box();
      root, parent, this.gsize := b, b, gsize;
      ghost var ps := Ptrs(null, null, null, null, null);
      eq := Equation(Node(b, []), map[b := []], map[b := ps], map[b := NEWBOX], map[], {});
      Single(Node(b, []), map[b := []], map[]);
    }

    /*** growing the tree *******************************************************/

    // A new box behind the children of p.
    method Add(p: Box, change: Info -> Info) returns (b: Box)
      requires Sound() && Place(eq, p) && HasRoom(eq.infos[p])
      requires
        var info := change(NEWBOX.(font := eq.infos[p].font, size := gsize));
        info.text == None && info.args == 0 && Fits(info)
      modifies this`eq, eq.links.Keys
      ensures Sound() && fresh(b) && b !in old(eq).links && eq.links.Keys == old(eq).links.Keys + {b}
      ensures eq == Appended(old(eq), p, b, change(NEWBOX.(font := old(eq).infos[p].font, size := gsize)))
      ensures Words(eq.tree, eq.words) == Words(old(eq).tree, old(eq).words)
      ensures OnSpine(eq.tree, p) && Chain(eq.tree, p) == Chain(old(eq).tree, p)
      ensures KidsAt(eq.tree, p) == KidsAt(old(eq).tree, p) + [Node(b, [])]
    {
      hide Rebuilt, Words, OnSpine, Chain, KidsAt, Appended, Shaped, Texts, Counted, Limits, Rooted, Holds, HasRoom;
      hide Fits;
      ghost var e := eq;
      KeysOf(e);
      ghost var info;
      b, info := AddBox(e, p, gsize, change);
      AppendedGood(e, p, b, info);
      eq := Appended(e, p, b, info);
    }

    // New contents for a box.
    method Fill(b: Box, info: Info)
      requires Valid() && b in eq.infos && b in eq.links && b != root && info.args == eq.infos[b].args
               && info.text == eq.infos[b].text
      requires (b in eq.words ==> info.font == eq.infos[b].font) && Fits(info)
      requires b in eq.lists ==> info.kind == List && info.expectargs == None
      modifies this`eq, b
      ensures Valid() && eq == Filled(old(eq), b, info)
    {
      hide OnSpine, Shaped, Texts, Counted, Limits, Rooted, Holds, Fits, Filled;
      ghost var e := eq;
      FilledGood(e, b, info);
      FilledRest(e, b, info);
      FillBox(e, b, info);
      eq := Filled(e, b, info);
    }

    // A new operator around the last child of p.
    method MakeBinary(p: Box, change: Info -> Info) returns (b: Box)
      requires Sound() && Place(eq, p) && eq.below[p] != []
      requires
        var info := change(Binary(eq.infos[p].font, gsize));
        info.text == None && info.args == 1 && Fits(info)
      modifies this`eq, eq.links.Keys
      ensures Sound() && fresh(b) && b !in old(eq).links && Operand(old(eq), p)
              && eq.links.Keys == old(eq).links.Keys + {b}
      ensures
        var info := change(Binary(old(eq).infos[p].font, gsize));
        eq == Grouped(old(eq), p, b, info)
      ensures Words(eq.tree, eq.words) == Words(old(eq).tree, old(eq).words)
      ensures OnSpine(eq.tree, b) && Chain(eq.tree, b) == Chain(old(eq).tree, p) + [b]
    {
      hide Rebuilt, Words, OnSpine, Chain, KidsAt, Grouped, Shaped, Texts, Counted, Limits, Rooted, Holds, Operand;
      hide Fits;
      ghost var e := eq;
      HasKids(e, p);
      ghost var info;
      b, info := GroupBox(e, p, gsize, change);
      GroupedGood(e, p, b, info);
      eq := Grouped(e, p, b, info);
    }

    /*** moving to enclosing boxes *************************************************/

    // Leave boxes with the property f: the loops of eqn_parse() that go to
    // parent->parent.
    method Close(f: Info -> bool)
      requires Valid()
      requires forall i: Info :: i.expectargs == None && i.kind == Text && i.pos == NoPos ==> !f(i)
      modifies this`parent
      ensures Valid() && Passed(eq, Chain(eq.tree, old(parent)), parent, f)
      ensures parent == old(parent) || eq.below[parent] != []
    {
      hide Words, OnSpine, Chain, Shaped, Texts, Counted, Limits, Rooted, Settled, Good, Holds;
      ghost var was := Chain(eq.tree, parent);
      KeysOf(eq);
      RootInfo(eq);
      InfoOf(eq, parent);
      while f(parent.info)
        invariant Valid() && Chain(eq.tree, parent) <= was && parent.info == eq.infos[parent]
        invariant forall i :: |Chain(eq.tree, parent)| <= i < |was| ==> was[i] in eq.infos && f(eq.infos[was[i]])
        invariant parent == old(parent) || eq.below[parent] != []
        decreases |Chain(eq.tree, parent)|
      {
        StepPlace(eq, parent);
        ghost var n := |Chain(eq.tree, parent)|;
        assert was[n - 1] == parent;
        InfoOf(eq, parent);
        parent := parent.parent;
        InfoOf(eq, parent);
      }
    }

    // The innermost box with the property f: the loops of eqn_parse() with
    // cur = cur->parent.
    method Find(f: Info -> bool) returns (cur: Box?)
      requires Valid()
      ensures cur == null ==> NoneOf(eq, Chain(eq.tree, parent), f)
      ensures cur != null ==> Innermost(eq, Chain(eq.tree, parent), cur, f)
    {
      hide Words, OnSpine, Chain, Shaped, Texts, Counted, Limits, Rooted, Settled, Good, Holds;
      ghost var was := Chain(eq.tree, parent);
      ghost var n: nat := |was|;
      cur := parent;
      KeysOf(eq);
      RootInfo(eq);
      InfoOf(eq, cur);
      while cur != null && !f(cur.info)
        invariant n <= |was| && (cur == null <==> n == 0)
                  && (cur != null ==> Place(eq, cur) && cur.info == eq.infos[cur])
        invariant cur != null ==> Place(eq, cur) && Chain(eq.tree, cur) == was[..n]
        invariant forall i :: n <= i < |was| ==> was[i] in eq.infos && !f(eq.infos[was[i]])
        decreases n
      {
        assert was[n - 1] == cur;
        if cur != root {
          StepPlace(eq, cur);
        } else {
          TopOf(eq, cur);
        }
        InfoOf(eq, cur);
        cur := cur.parent;
        n := n - 1;
        if cur != null {
          InfoOf(eq, cur);
        }
      }
    }

    // A new text box.
    method PutText(text: string) returns (cur: Box)
      requires Sound() && Place(eq, parent) && SettledBut(eq, parent) && HasRoom(eq.infos[parent])
      modifies this`eq, eq.links.Keys
      ensures Valid() && fresh(cur) && cur !in old(eq).links && eq.links.Keys == old(eq).links.Keys + {cur}
      ensures eq.below[parent] != [] && Chain(eq.tree, parent) == Chain(old(eq).tree, parent)
      ensures TextBox(eq, cur) && Newest(eq, parent, cur) && eq.infos[cur].font == old(eq).infos[parent].font
      ensures eq.infos[parent] == old(eq).infos[parent].(args := old(eq).infos[parent].args + 1)
      ensures
        var info := NEWBOX.(font := old(eq).infos[parent].font, size := gsize);
        eq == Labelled(Appended(old(eq), parent, cur, info), cur, info.(text := Some(text)))
      ensures Words(eq.tree, eq.words) == Words(old(eq).tree, old(eq).words) + [Leaf(text, old(eq).infos[parent].font)]
      ensures
        FramesOf(eq, parent) == Put(FramesOf(old(eq), parent), Lettering(Leaf(text, old(eq).infos[parent].font), gsize))
    {
      hide Words, OnSpine, Chain, KidsAt, Rebuilt, Shaped, Texts, Counted, Limits, Rooted, Holds, HasRoom, Appended;
      hide Settled, SettledBut, Good, Labelled, Newest, FramesOf, Put;
      ghost var e, f := eq, eq;
      cur, f := AddText(e, parent, gsize, text);
      ghost var info := NEWBOX.(font := e.infos[parent].font, size := gsize);
      LabelledFrames(e, parent, cur, info, info.(text := Some(text)));
      NewLeaf(e, parent, cur, NEWBOX.(font := e.infos[parent].font, size := gsize), text);
      eq := f;
    }

    // A new box below p as the place for what follows.
    method Open(p: Box, change: Info -> Info)
      requires Valid() && Place(eq, p) && HasRoom(eq.infos[p])
      requires
        var info := change(NEWBOX.(font := eq.infos[p].font, size := gsize));
        info.text == None && info.args == 0 && Fits(info)
      modifies this`eq, this`parent, eq.links.Keys
      ensures Valid() && fresh(parent) && parent !in old(eq).links && eq.links.Keys == old(eq).links.Keys + {parent}
      ensures eq == Appended(old(eq), p, parent, change(NEWBOX.(font := old(eq).infos[p].font, size := gsize)))
      ensures Chain(eq.tree, parent) == Chain(old(eq).tree, p) + [parent]
      ensures Words(eq.tree, eq.words) == Words(old(eq).tree, old(eq).words)
    {
      hide Words, OnSpine, Chain, KidsAt, Rebuilt, Shaped, Texts, Counted, Limits, Rooted, Holds, HasRoom, Fits;
      hide Appended, Settled, SettledBut;
      ghost var e := eq;
      KeysOf(e);
      parent := Add(p, change);
      ghost var info := change(NEWBOX.(font := e.infos[p].font, size := gsize));
      AppendedInner(e, p, parent, info);
      SettledWeak(e, p);
      AppendedSettled(e, p, parent, info);
    }

    // A new operator for the last child of p.
    method Operate(p: Box, change: Info -> Info) returns (b: Box)
      requires Valid() && Place(eq, p) && eq.below[p] != []
      requires
        var info := change(Binary(eq.infos[p].font, gsize));
        info.text == None && info.args == 1 && Fits(info)
      modifies this`eq, eq.links.Keys
      ensures Sound() && Place(eq, p) && Place(eq, b) && Settled(eq)
      ensures fresh(b) && b !in old(eq).links && Operand(old(eq), p) && eq.links.Keys == old(eq).links.Keys + {b}
      ensures
        var info := change(Binary(old(eq).infos[p].font, gsize));
        eq == Grouped(old(eq), p, b, info)
      ensures Chain(eq.tree, b) == Chain(old(eq).tree, p) + [b] && Chain(eq.tree, p) == Chain(old(eq).tree, p)
      ensures eq.below[p] != [] && b.parent == p && eq.links[p].last == b && b in eq.infos
              && eq.below[b] == [old(eq).links[p].last]
      ensures
        eq.infos[b] == change(NEWBOX.(font := old(eq).infos[p].font, size := gsize, kind := Subexpr,
            expectargs := Some(2), args := 1))
      ensures Words(eq.tree, eq.words) == Words(old(eq).tree, old(eq).words)
    {
      hide Words, OnSpine, Chain, KidsAt, Rebuilt, Shaped, Texts, Counted, Limits, Rooted, Holds, Operand, Fits;
      hide Grouped, Settled;
      ghost var e := eq;
      KeysOf(e);
      b := MakeBinary(p, change);
      ghost var info :=
        change(Binary(e.infos[p].font, gsize));
      GroupedInner(e, p, b, info);
      GroupedSettled(e, p, b, info);
      InfoOf(eq, b);
    }

    // The operand of an operator: an empty text if there is none.
    method Missing()
      requires Valid()
      modifies this`eq, eq.links.Keys
      ensures Valid() && eq.below[parent] != [] && fresh(eq.links.Keys - old(eq).links.Keys)
      ensures Supplied(old(eq), parent, gsize, eq)
    {
      hide Words, OnSpine, Chain, KidsAt, Rebuilt, Shaped, Texts, Counted, Limits, Rooted, Holds, HasRoom, Settled;
      hide Labelled, Appended, SettledBut, Lettered;
      LinksOf(eq, parent);
      InfoOf(eq, parent);
      if parent.last == null {
        EmptyRoom(eq, parent);
        SettledWeak(eq, parent);
        ghost var e := eq;
        var cur := PutText("");
        LetteredFirst(e, parent, gsize, "", eq, cur);
      }
    }

    /*** one token ******************************************************************/

    // An accent is a list around its operand.
    method ReadDiacritic(a: Accent) returns (ghost mid: Equation, b: Box)
      requires Valid()
      modifies this`eq, this`parent, eq.links.Keys
      ensures Valid() && parent == old(parent) && fresh(eq.links.Keys - old(eq).links.Keys)
      ensures Supplied(old(eq), parent, gsize, mid) && b !in mid.links && Operand(mid, parent)
              && eq == Grouped(mid, parent, b, Accented(a, gsize))
      ensures Words(eq.tree, eq.words) == Words(mid.tree, mid.words)
    {
      hide Words, OnSpine, Chain, KidsAt, Rebuilt, Shaped, Texts, Counted, Limits, Rooted, Holds, Settled, Grouped;
      hide Good, Operand, Fits;
      hide Supplied, Lettered;
      Missing();
      mid := eq;
      AccentedFits(a, gsize);
      b := Operate(parent, (i: Info) => i.(kind := List, expectargs := Some(1), font := Roman, top := Above(a),
          bottom := Below(a)));
      parent := b.parent;
    }

    // A box inside of the innermost box that is not full.
    method Nest(change: Info -> Info, ghost was: seq<Box>) returns (ghost q: Box)
      requires Valid() && was == Chain(eq.tree, parent)
      requires forall font ::
                 var info := change(NEWBOX.(font := font, size := gsize));
                 info.text == None && info.args == 0 && Fits(info)
      modifies this`eq, this`parent, eq.links.Keys
      ensures Valid() && fresh(parent) && parent !in old(eq).links && eq.links.Keys == old(eq).links.Keys + {parent}
      ensures Passed(old(eq), was, q, Full)
      ensures eq == Appended(old(eq), q, parent, change(NEWBOX.(font := old(eq).infos[q].font, size := gsize)))
      ensures Chain(eq.tree, parent) == Chain(old(eq).tree, q) + [parent]
      ensures Words(eq.tree, eq.words) == Words(old(eq).tree, old(eq).words)
    {
      hide Words, OnSpine, Chain, KidsAt, Rebuilt, Shaped, Texts, Counted, Limits, Rooted, Holds, Settled, Appended;
      Close(Full);
      NotFull(eq, parent);
      q := parent;
      Open(parent, change);
    }

    // Leave the innermost box with a position: part of from and to.
    method LeavePosition()
      requires Valid()
      modifies this`parent
      ensures Valid() && LeftPosition(eq, old(parent), parent)
      ensures old(eq.below[parent]) != [] ==> eq.below[parent] != []
    {
      hide Words, OnSpine, Chain, Shaped, Texts, Counted, Limits, Rooted, Holds, Settled;
      KeysOf(eq);
      var cur := Find(InPosition);
      if cur != null {
        RootInfo(eq);
        StepPlace(eq, cur);
        InfoOf(eq, cur);
        parent := cur.parent;
      }
    }

    // Put a script there: the other part of from, to, sub, and sup.
    method PutScript(tok: Pos)
      requires Valid() && tok in {From, To, Sub, Sup} && eq.below[parent] != []
      modifies this`eq, this`parent, eq.links.Keys
      ensures Valid() && fresh(eq.links.Keys - old(eq).links.Keys)
      ensures Scripted(old(eq), old(parent), tok, gsize, eq, parent)
      ensures Words(eq.tree, eq.words) == Words(old(eq).tree, old(eq).words)
    {
      hide Words, OnSpine, Chain, KidsAt, Rebuilt, Shaped, Texts, Counted, Limits, Rooted, Holds, Settled, Fits, Good;
      hide Appended, Grouped, Filled, Operand;
      ghost var e, q := eq, parent;
      InfoOf(e, q);
      if tok == Sup && parent.info.pos == Sub {
        Upgradable(e, q, SubSup);
        FilledRest(e, q, e.infos[q].(expectargs := Some(3), pos := SubSup));
        Fill(parent, parent.info.(expectargs := Some(3), pos := SubSup));
      } else if tok == To && parent.info.pos == From {
        Upgradable(e, q, FromTo);
        FilledRest(e, q, e.infos[q].(expectargs := Some(3), pos := FromTo));
        Fill(parent, parent.info.(expectargs := Some(3), pos := FromTo));
      } else {
        OperatorFits(e.infos[q].font, gsize, tok);
        parent := Operate(parent, (i: Info) => i.(pos := tok));
      }
    }

    // A second operand for a box: from, to, sub, and sup.
    method ReadScript(tok: Pos) returns (ghost mid: Equation, ghost s: Box, ghost q: Box)
      requires Valid() && tok in {From, To, Sub, Sup}
      modifies this`eq, this`parent, eq.links.Keys
      ensures Valid() && fresh(eq.links.Keys - old(eq).links.Keys)
      ensures Supplied(old(eq), old(parent), gsize, mid) && Passed(mid, Chain(mid.tree, old(parent)), s, Alone)
      ensures if tok in {From, To} then LeftPosition(mid, s, q) else q == s
      ensures Scripted(mid, q, tok, gsize, eq, parent)
      ensures Words(eq.tree, eq.words) == Words(mid.tree, mid.words)
    {
      hide Words, OnSpine, Chain, Shaped, Texts, Counted, Limits, Rooted, Holds, Settled, Good, LeftPosition, Scripted;
      hide Supplied, Lettered;
      Missing();
      mid := eq;
      Close(Alone);
      s := parent;
      if tok == From || tok == To {
        LeavePosition();
      }
      q := parent;
      PutScript(tok);
    }

    method PutFraction()
      requires Valid() && eq.below[parent] != []
      modifies this`eq, this`parent, eq.links.Keys
      ensures Valid() && fresh(eq.links.Keys - old(eq).links.Keys)
      ensures Operand(old(eq), old(parent)) && parent !in old(eq).links
      ensures eq == Grouped(old(eq), old(parent), parent, Operator(old(eq).infos[old(parent)].font, gsize, Over))
      ensures Words(eq.tree, eq.words) == Words(old(eq).tree, old(eq).words)
    {
      hide Words, OnSpine, Chain, KidsAt, Rebuilt, Shaped, Texts, Counted, Limits, Rooted, Holds, Settled, Good;
      hide Grouped, Operand;
      OperatorFits(eq.infos[parent].font, gsize, Over);
      parent := Operate(parent, (i: Info) => i.(pos := Over));
    }

    // A fraction of what was read since the innermost list, or pile.
    method ReadFraction() returns (ghost mid: Equation, ghost s: Box, ghost q: Box)
      requires Valid()
      modifies this`eq, this`parent, eq.links.Keys
      ensures Valid() && fresh(eq.links.Keys - old(eq).links.Keys)
      ensures Supplied(old(eq), old(parent), gsize, mid)
      ensures Passed(mid, Chain(mid.tree, old(parent)), s, Full) && Passed(mid, Chain(mid.tree, s), q, IsSubexpr)
      ensures Operand(mid, q) && parent !in mid.links
              && eq == Grouped(mid, q, parent, Operator(mid.infos[q].font, gsize, Over))
      ensures Words(eq.tree, eq.words) == Words(mid.tree, mid.words)
    {
      hide Words, OnSpine, Chain, KidsAt, Rebuilt, Shaped, Texts, Counted, Limits, Rooted, Holds, Settled, Good;
      hide Grouped, Operand;
      hide Supplied, Lettered;
      Missing();
      mid := eq;
      Close(Full);
      s := parent;
      Close(IsSubexpr);
      q := parent;
      PutFraction();
    }

    // The next row of the innermost pile.
    method ReadNext() returns (cur: Box?)
      requires Valid()
      modifies this`eq, this`parent, eq.links.Keys
      ensures Valid() && fresh(eq.links.Keys - old(eq).links.Keys)
      ensures
        if cur == null then NoneOf(old(eq), Chain(old(eq).tree, old(parent)), IsPile) && eq == old(eq)
            && parent == old(parent)
        else
          && Innermost(old(eq), Chain(old(eq).tree, old(parent)), cur, IsPile) && parent !in old(eq).links
          && eq == Appended(old(eq), cur, parent, NEWBOX.(font := old(eq).infos[cur].font, size := gsize, kind := List))
      ensures Words(eq.tree, eq.words) == Words(old(eq).tree, old(eq).words)
    {
      hide Words, OnSpine, Chain, KidsAt, Rebuilt, Shaped, Texts, Counted, Limits, Rooted, Holds, Settled, Good;
      hide Appended;
      cur := Find(IsPile);
      if cur != null {
        Open(cur, (i: Info) => i.(kind := List));
      }
    }

    // Leave the box c, which is not the root.
    method Leave(c: Box)
      requires Valid() && Place(eq, c) && c != root
      modifies this`parent
      ensures Valid() && Chain(eq.tree, parent) == Chain(eq.tree, c)[..|Chain(eq.tree, c)| - 1]
    {
      hide Words, OnSpine, Chain, KidsAt, Rebuilt, Shaped, Texts, Counted, Limits, Rooted, Settled, Good;
      KeysOf(eq);
      StepPlace(eq, c);
      InfoOf(eq, c);
      parent := c.parent;
    }

    // The end of braces, or of fences: the result is the box that is closed.
    method ReadClose(brace: bool, fence: Option<string>) returns (cur: Box?)
      requires Valid()
      modifies this`eq, this`parent, eq.links.Keys
      ensures Valid() && eq.links.Keys == old(eq).links.Keys
      ensures Closing(old(eq), old(parent), brace, fence, cur, eq, parent)
      ensures Words(eq.tree, eq.words) == Words(old(eq).tree, old(eq).words)
    {
      hide Words, OnSpine, Chain, KidsAt, Rebuilt, Shaped, Texts, Counted, Limits, Rooted, Holds, Settled, Good, Filled;
      cur := Find(Closer(brace));
      if cur == null {
        return;
      }
      ghost var e := eq;
      RootInfo(e);
      if !brace {
        if fence.None? {
          parent := cur;
          return;
        }
        InfoOf(e, cur);
        Fenced(e, cur, RightFence(fence.value));
        FilledRest(e, cur, e.infos[cur].(right := Some(RightFence(fence.value))));
        Fill(cur, cur.info.(right := Some(RightFence(fence.value))));
      }
      CloseAfter(cur, brace);
    }

    // Go on behind the box cur.
    method CloseAfter(cur: Box, brace: bool)
      requires Valid() && Place(eq, cur) && cur != root
      modifies this`parent
      ensures Valid() && ClosedAt(eq, cur, brace, parent)
    {
      hide Words, OnSpine, Chain, KidsAt, Rebuilt, Shaped, Texts, Counted, Limits, Rooted, Holds, Settled, Good;
      KeysOf(eq);
      RootInfo(eq);
      ghost var was := Chain(eq.tree, cur);
      assert cur == was[|was| - 1];
      Leave(cur);
      InfoOf(eq, parent);
      assert parent == was[..|was| - 1][|was| - 2] == was[|was| - 2];
      if brace && (parent.info.kind == Pile || parent.info.kind == Matrix) {
        Leave(parent);
        assert Chain(eq.tree, parent) == was[..|was| - 2];
      }
      Close(SingleList);
    }

    /*** texts *********************************************************************/

    // Another text or font for the last text box.
    method SetText(cur: Box, text: string, font: Font, ghost base: seq<Leaf>, ghost was: Leaf)
      requires Valid() && Newest(eq, parent, cur)
      requires Words(eq.tree, eq.words) == base + [was] && TextBox(eq, cur)
      modifies this`eq, cur
      ensures Valid() && eq == Labelled(old(eq), cur, old(eq).infos[cur].(text := Some(text), font := font))
              && TextBox(eq, cur)
      ensures Words(eq.tree, eq.words) == base + [Leaf(text, font)]
      ensures Top(FramesOf(old(eq), parent)).kids != []
      ensures FramesOf(eq, parent) == Retext(FramesOf(old(eq), parent), Leaf(text, font))
    {
      hide FramesOf, Retext, Top;
      hide Words, OnSpine, Chain, KidsAt, Rebuilt, Shaped, Texts, Counted, Limits, Rooted, Holds, Settled, Good;
      InfoOf(eq, cur);
      ghost var e, info := eq, cur.info.(text := Some(text), font := font);
      Retexted(e, parent, cur, info, base, was);
      RetextFrames(e, parent, cur, info);
      FillBox(e, cur, cur.info.(text := Some(text), font := font));
      eq := Labelled(e, cur, info);
    }

    // Put the last text box into a list, and go on there.
    method MakeList(cur: Box)
      requires Valid() && Newest(eq, parent, cur)
      requires cur !in eq.lists
      modifies this`eq, this`parent, eq.links.Keys
      ensures Sound() && Place(eq, parent) && SettledBut(eq, parent) && eq.infos[parent].expectargs == None
      ensures fresh(parent) && eq.links.Keys == old(eq).links.Keys + {parent} && Operand(old(eq), old(parent))
              && parent !in old(eq).links
      ensures
        var info := NEWBOX.(font := old(eq).infos[old(parent)].font, size := gsize, kind := List);
        eq == Grouped(old(eq), old(parent), parent, info)
      ensures Chain(eq.tree, parent) == Chain(old(eq).tree, old(parent)) + [parent]
              && KidsAt(eq.tree, parent) == [Node(cur, [])]
      ensures
        var info := NEWBOX.(font := old(eq).infos[old(parent)].font, size := gsize, kind := List);
        Top(FramesOf(old(eq), old(parent))).kids != []
        && FramesOf(eq, parent) == Group(FramesOf(old(eq), old(parent)), info)
      ensures Words(eq.tree, eq.words) == Words(old(eq).tree, old(eq).words)
    {
      hide Words, OnSpine, Chain, KidsAt, Rebuilt, Shaped, Texts, Counted, Limits, Rooted, Holds, Settled;
      hide SettledBut, Grouped, FramesOf, Group, Top;
      ghost var e, p := eq, parent;
      KeysOf(e);
      LastBelow(e, p, cur);
      ghost var info;
      var split;
      split, info := ListBox(e, parent, cur, gsize);
      ListInner(e, p, cur, split, info);
      GroupedFrames(e, p, split, info);
      eq := Grouped(e, p, split, info);
      parent := split;
    }

    // One more text box for the rest of the last one, in a list if there is no
    // room for it.
    method SplitText(cur: Box, head: string, font: Font, rest: string, ghost base: seq<Leaf>, ghost was: Leaf)
      returns (nbox: Box, listed: bool, ghost now: Leaf)
      requires Valid() && Newest(eq, parent, cur)
      requires Words(eq.tree, eq.words) == base + [was] && TextBox(eq, cur)
      modifies this`eq, this`parent, eq.links.Keys
      ensures Valid() && fresh(eq.links.Keys - old(eq).links.Keys)
      ensures Newest(eq, parent, nbox)
      ensures TextBox(eq, nbox) && now.text == rest
      ensures Words(eq.tree, eq.words) == base + [Leaf(head, font)] + [now]
      ensures listed <==> Full(old(eq).infos[old(parent)])
      ensures
        if listed then Chain(eq.tree, parent) == Chain(old(eq).tree, old(parent)) + [parent]
            && eq.infos[parent].expectargs == None
        else
          && parent == old(parent) && Chain(eq.tree, parent) == Chain(old(eq).tree, parent)
          && eq.infos[parent].expectargs == old(eq).infos[parent].expectargs
      ensures Top(FramesOf(old(eq), old(parent))).kids != []
      ensures |FramesOf(eq, parent)| == |FramesOf(old(eq), old(parent))| + if listed then 1 else 0
      ensures
        var g := Retext(FramesOf(old(eq), old(parent)), Leaf(head, font));
        var i := Top(g).info;
        FramesOf(eq, parent)
        == Put(if Full(i) then Group(g, NEWBOX.(font := i.font, size := gsize, kind := List)) else g,
               Lettering(now, gsize))
    {
      hide Words, OnSpine, Chain, KidsAt, Rebuilt, Shaped, Texts, Counted, Limits, Rooted, Holds, Settled;
      hide SettledBut, Grouped, Operand, Good;
      hide Appended, HasRoom, FramesOf, Retext, Group, Put, Top, Lettering;
      ghost var e := eq;
      SetText(cur, head, font, base, was);
      InfoOf(eq, parent);
      FramesTop(eq, parent);
      SettledWeak(eq, parent);
      listed := Full(parent.info);
      if listed {
        MakeList(cur);
      }
      NotFull(eq, parent);
      now := Leaf(rest, eq.infos[parent].font);
      nbox := PutText(rest);
    }

    // The pieces done of a word and the text of the last box, behind the texts
    // base and below the boxes c, which look like fs without the word.
    ghost predicate InWord(fs: seq<Shape>, c: seq<Box>, base: seq<Leaf>, done: seq<Leaf>, was: Leaf, cur: Box,
        listed: bool)
      reads this, eq.links.Keys
    {
      && Valid() && Newest(eq, parent, cur) && TextBox(eq, cur) && fs != []
      && Words(eq.tree, eq.words) == base + done + [was] && FramesOf(eq, parent) == Pieced(fs, done + [was], gsize)
      && Chain(eq.tree, parent) == c + (if listed then [parent] else [])
      && (listed ==> eq.infos[parent].expectargs == None) && (listed <==> |FramesOf(eq, parent)| > |fs|)
    }

    // Split the next piece from a word.
    method SplitNext(cur: Box, piece: Leaf, rest: string, listed: bool, ghost fs: seq<Shape>, ghost c: seq<Box>,
                     ghost base: seq<Leaf>, ghost done: seq<Leaf>, ghost was: Leaf)
      returns (nbox: Box, more: bool, ghost now: Leaf)
      requires InWord(fs, c, base, done, was, cur, listed)
      modifies this`eq, this`parent, eq.links.Keys
      ensures InWord(fs, c, base, done + [piece], now, nbox, more) && now.text == rest
      ensures fresh(eq.links.Keys - old(eq).links.Keys)
    {
      hide Words, OnSpine, Chain, KidsAt, Rebuilt, Shaped, Texts, Counted, Limits, Rooted, Holds, Settled;
      hide SettledBut, Grouped, Operand, TextBox, FramesOf, Pieced, Group, Put, Top, Lettering, Retext, Good, Newest;
      RetextPieced(fs, done, was, piece, gsize);
      nbox, more, now := SplitText(cur, piece.text, piece.font, rest, base + done, was);
      PiecedMore(fs, done + [piece], now, gsize);
      assert base + done + [piece] == base + (done + [piece]);
      more := listed || more;
    }

    // Split all parts from a word but the last one.
    method SplitParts(word: Box, s: string, ghost base: seq<Leaf>, ghost first: Leaf, ghost fs: seq<Shape>,
                      ghost c: seq<Box>)
      returns (cur: Box, text: string, r: Option<(nat, Class)>, listed: bool, ghost done: seq<Leaf>, ghost was: Leaf)
      requires InWord(fs, c, base, [], first, word, false) && s != [] && '\0' !in s && first.text == s
      modifies this`eq, this`parent, eq.links.Keys
      ensures InWord(fs, c, base, done, was, cur, listed) && fresh(eq.links.Keys - old(eq).links.Keys)
      ensures text != [] && '\0' !in text
      ensures r == Cut(text, 0, ClassAt(text, 0, Letter)) && (r.None? || r.value.0 == |text|)
      ensures Pieces(s) == if Pieces(text).Some? then Some(done + Pieces(text).value) else None
    {
      hide Words, OnSpine, Chain, KidsAt, Rebuilt, Shaped, Texts, Counted, Limits, Rooted, Holds, Settled;
      hide Cut, ClassAt, EqnWords.FontOf, Good, Pieces, InWord;
      was, done, cur, text, listed := first, [], word, s, false;
      assert Pieces(s).Some? ==> done + Pieces(s).value == Pieces(s).value;
      r := NextCut(text);
      while r.Some? && r.value.0 < |text|
        invariant InWord(fs, c, base, done, was, cur, listed) && fresh(eq.links.Keys - old(eq).links.Keys)
        invariant text != [] && '\0' !in text && was.text == text && r == Cut(text, 0, ClassAt(text, 0, Letter))
        invariant Pieces(s) == if Pieces(text).Some? then Some(done + Pieces(text).value) else None
        decreases |text|
      {
        PiecesStep(text, done);
        var (n, class_) := r.value;
        var piece := Leaf(text[..n], EqnWords.FontOf(class_));
        cur, listed, was := SplitNext(cur, piece, text[n..], listed, fs, c, base, done, was);
        done, text := done + [piece], text[n..];
        r := NextCut(text);
      }
    }

    lemma StartWord(fs: seq<Shape>, base: seq<Leaf>, first: Leaf, word: Box)
      requires Valid() && Newest(eq, parent, word) && TextBox(eq, word) && fs != []
      requires Words(eq.tree, eq.words) == base + [first] && FramesOf(eq, parent) == Pieced(fs, [first], gsize)
      ensures InWord(fs, Chain(eq.tree, parent), base, [], first, word, false)
    {
      hide Words, OnSpine, Chain, KidsAt, Rebuilt, Shaped, Texts, Counted, Limits, Rooted, Holds, Settled, Good;
      hide Newest, TextBox, FramesOf, Pieced;
      WordedOne(fs, first, gsize);
      var c := Chain(eq.tree, parent);
      assert c + [] == c && base + [] + [first] == base + [first] && [] + [first] == [first];
    }

    // The last piece of a word.
    method EndWord(cur: Box, last: Leaf, listed: bool, ghost fs: seq<Shape>, ghost c: seq<Box>, ghost base: seq<Leaf>,
                   ghost done: seq<Leaf>, ghost was: Leaf)
      requires InWord(fs, c, base, done, was, cur, listed) && c != []
      modifies this`eq, this`parent, eq.links.Keys
      ensures fresh(eq.links.Keys - old(eq).links.Keys)
      ensures Valid() && Chain(eq.tree, parent) == c && parent == c[|c| - 1]
      ensures Words(eq.tree, eq.words) == base + (done + [last])
      ensures FramesOf(eq, parent) == Worded(fs, done + [last], gsize)
    {
      hide Words, OnSpine, Chain, KidsAt, Rebuilt, Shaped, Texts, Counted, Limits, Rooted, Holds, Settled, Good;
      hide SettledBut, Newest, FramesOf, Pieced, Retext, Up, Top;
      SetText(cur, last.text, last.font, base + done, was);
      RetextPieced(fs, done, was, last, gsize);
      assert base + done + [last] == base + (done + [last]);
      if listed {
        LeaveList(parent, c);
      } else {
        assert c + [] == c;
      }
    }

    // Split a word into text boxes.
    method SplitWord(word: Box, s: string, ghost base: seq<Leaf>, ghost first: Leaf, ghost fs: seq<Shape>)
      returns (ok: bool)
      requires Valid() && Newest(eq, parent, word)
      requires Words(eq.tree, eq.words) == base + [first] && TextBox(eq, word)
      requires s != [] && '\0' !in s && first.text == s
      requires fs != [] && FramesOf(eq, parent) == Pieced(fs, [first], gsize)
      modifies this`eq, this`parent, eq.links.Keys
      ensures fresh(eq.links.Keys - old(eq).links.Keys) && (ok <==> Pieces(s).Some?)
      ensures ok ==> Valid() && parent == old(parent) && Chain(eq.tree, parent) == Chain(old(eq).tree, parent)
      ensures ok ==> Words(eq.tree, eq.words) == base + Pieces(s).value
      ensures ok ==> Pieces(s).value != [] && FramesOf(eq, parent) == Worded(fs, Pieces(s).value, gsize)
    {
      hide Words, OnSpine, Chain, KidsAt, Rebuilt, Shaped, Texts, Counted, Limits, Rooted, Holds, Settled;
      hide InWord, Cut, ClassAt, EqnWords.FontOf, Good, Pieces, Newest, FramesOf, Pieced, Worded, TextBox;
      ghost var c := Chain(eq.tree, parent);
      StartWord(fs, base, first, word);
      var cur, text, r, listed;
      ghost var done, was;
      cur, text, r, listed, done, was := SplitParts(word, s, base, first, fs, c);
      PiecesStep(text, done);
      if r.None? {
        return false;
      }
      EndWord(cur, Leaf(text, EqnWords.FontOf(r.value.1)), listed, fs, c, base, done, was);
      ok := true;
    }

    // Go on behind the list for the parts of a word.
    method LeaveList(split: Box, ghost c: seq<Box>)
      requires Valid() && parent == split && c != [] && Chain(eq.tree, parent) == c + [split]
      modifies this`parent
      ensures Valid() && Chain(eq.tree, parent) == c && parent == c[|c| - 1]
      ensures |FramesOf(eq, split)| >= 2 && FramesOf(eq, parent) == Up(FramesOf(eq, split))
    {
      hide Words, OnSpine, Chain, KidsAt, Rebuilt, Shaped, Texts, Counted, Limits, Rooted, Settled, Good;
      hide Frames, Proper, Boxes, Up;
      assert split != root by {
        if split == root {
          TopOf(eq, split);
        }
      }
      BelowKids(eq, split);
      UpFrames(eq.tree, split, eq.infos);
      Leave(split);
      assert (c + [split])[..|c|] == c;
    }

    // The font of the new text box cur, and its parts.
    method FinishText(tok: Token, cur: Box, font: Font, ghost base: seq<Leaf>, ghost fs: seq<Shape>)
      returns (ok: bool)
      requires Valid() && Newest(eq, parent, cur)
      requires IsText(tok) && '\0' !in tok.text && Words(eq.tree, eq.words) == base + [Leaf(tok.text, font)]
      requires TextBox(eq, cur) && fs != [] && FramesOf(eq, parent) == Put(fs, Lettering(Leaf(tok.text, font), gsize))
      modifies this`eq, this`parent, eq.links.Keys
      ensures fresh(eq.links.Keys - old(eq).links.Keys) && (ok <==> Leaves(tok, font).Some?)
      ensures ok ==> Valid() && parent == old(parent) && Chain(eq.tree, parent) == Chain(old(eq).tree, parent)
      ensures ok ==> Words(eq.tree, eq.words) == base + Leaves(tok, font).value
      ensures
        ok ==>
          Leaves(tok, font).value != [] && FramesOf(eq, parent) == Worded(fs, Leaves(tok, font).value, gsize)
    {
      hide Words, OnSpine, Chain, KidsAt, Rebuilt, Shaped, Texts, Counted, Limits, Rooted, Holds, Settled;
      hide SettledBut, Good, Pieces, FramesOf, Put, Lettering, Retext, Worded, Pieced;
      ok := true;
      WordedOne(fs, Leaf(tok.text, font), gsize);
      if Leaves(tok, font).Some? && |Leaves(tok, font).value| == 1 {
        WordedOne(fs, Leaves(tok, font).value[0], gsize);
        RetextPut(fs, Leaf(tok.text, font), Leaves(tok, font).value[0], gsize);
      }
      if tok.Func? {
        SetText(cur, tok.text, Roman, base, Leaf(tok.text, font));
      } else if tok.Quoted? && font == NoFont {
        SetText(cur, tok.text, Italic, base, Leaf(tok.text, font));
      } else if tok.Word? && font == NoFont && tok.text != [] {
        ok := SplitWord(cur, tok.text, base, Leaf(tok.text, font), fs);
      }
    }

    // A text goes into the innermost box that is not full.
    method ReadText(tok: Token) returns (ok: bool, ghost q: Box)
      requires Valid() && IsText(tok) && '\0' !in tok.text
      modifies this`eq, this`parent, eq.links.Keys
      ensures fresh(eq.links.Keys - old(eq).links.Keys) && Passed(old(eq), Chain(old(eq).tree, old(parent)), q, Full)
      ensures ok <==> Leaves(tok, old(eq).infos[q].font).Some?
      ensures ok ==> Valid() && parent == q && Chain(eq.tree, parent) == Chain(old(eq).tree, q)
      ensures ok ==>
                Words(eq.tree, eq.words)
                == Words(old(eq).tree, old(eq).words) + Leaves(tok, old(eq).infos[q].font).value
      ensures
        ok ==>
          var ls := Leaves(tok, old(eq).infos[q].font).value;
          ls != [] && FramesOf(eq, parent) == Worded(FramesOf(old(eq), q), ls, gsize)
    {
      hide Words, OnSpine, Chain, KidsAt, Rebuilt, Shaped, Texts, Counted, Limits, Rooted, Holds, Settled;
      hide SettledBut, Good;
      hide Leaves, HasRoom, Appended, Labelled, FramesOf, Worded, Put, Lettering;
      Close(Full);
      q := parent;
      NotFull(eq, parent);
      SettledWeak(eq, parent);
      InfoOf(eq, parent);
      ghost var base, fs := Words(eq.tree, eq.words), FramesOf(eq, parent);
      var font := parent.info.font;
      var cur := PutText(tok.text);
      ok := FinishText(tok, cur, font, base, fs);
    }

    // One token that is not a text.
    method ReadOther(tok: Token) returns (ghost mid: Equation, ghost s: Box?, ghost q: Box?)
      requires Valid() && !IsText(tok) && Readable(tok)
      modifies this, eq.links.Keys
      ensures fresh(eq.links.Keys - old(eq).links.Keys)
      ensures gsize == SizeAfter(tok, old(gsize))
      ensures Valid() && Effect(tok, old(eq), old(parent), old(gsize), mid, s, q, eq, parent)
      ensures Concat(Words(eq.tree, eq.words)) == Concat(Words(old(eq).tree, old(eq).words))
    {
      hide Words, OnSpine, Chain, KidsAt, Rebuilt, Shaped, Texts, Counted, Limits, Rooted, Holds, Settled;
      hide SettledBut, Good, HasRoom, Appended, Labelled, Concat, Grouped, Filled, Fits, Operand, Scripted;
      hide LeftPosition, Closing, Supplied, Innermost, NoneOf;
      if Nests(tok) {
        mid, s := eq, null;
        NestedFits(tok);
        q := Nest((i: Info) => Nested(tok, i), Chain(eq.tree, parent));
      } else if tok.GlobalSize? {
        mid, s, q := eq, null, null;
        if tok.size.Some? {
          gsize := tok.size.value;
        }
      } else if Closes(tok) {
        hide Effect;
        mid, s := eq, null;
        q := ReadPlace(tok, mid);
      } else {
        hide Effect;
        mid, s, q := ReadOperator(tok);
      }
    }

    // A token that leads to a box further out.
    method ReadPlace(tok: Token, ghost mid: Equation) returns (ghost q: Box?)
      requires Valid() && Closes(tok) && !Nests(tok)
      modifies this`eq, this`parent, eq.links.Keys
      ensures fresh(eq.links.Keys - old(eq).links.Keys)
      ensures Valid() && Readable(tok) && Effect(tok, old(eq), old(parent), gsize, mid, null, q, eq, parent)
      ensures Concat(Words(eq.tree, eq.words)) == Concat(Words(old(eq).tree, old(eq).words))
    {
      hide Words, OnSpine, Chain, KidsAt, Rebuilt, Shaped, Texts, Counted, Limits, Rooted, Holds, Settled;
      hide SettledBut, Good, HasRoom, Appended, Labelled, Concat, Grouped, Filled, Fits, Operand, Scripted;
      hide LeftPosition, Closing, Supplied, Innermost, NoneOf;
      q := null;
      match tok {
        case Left(_) => Close(Full);
        case Right(fence) => q := ReadClose(false, fence);
        case BraceClose => q := ReadClose(true, None);
        case Next => q := ReadNext();
      }
    }

    // A token that takes an operand in front of it, or one to ignore.
    method ReadOperator(tok: Token) returns (ghost mid: Equation, ghost s: Box?, ghost q: Box?)
      requires Valid() && !IsText(tok) && !Nests(tok) && !Closes(tok) && !tok.GlobalSize? && Readable(tok)
      modifies this`eq, this`parent, eq.links.Keys
      ensures fresh(eq.links.Keys - old(eq).links.Keys)
      ensures Valid() && Effect(tok, old(eq), old(parent), gsize, mid, s, q, eq, parent)
      ensures Concat(Words(eq.tree, eq.words)) == Concat(Words(old(eq).tree, old(eq).words))
    {
      hide Words, OnSpine, Chain, KidsAt, Rebuilt, Shaped, Texts, Counted, Limits, Rooted, Holds, Settled;
      hide SettledBut, Good, HasRoom, Appended, Labelled, Concat, Grouped, Filled, Fits, Operand, Scripted;
      hide LeftPosition, Closing, Supplied, Innermost, NoneOf;
      mid, s, q := eq, null, null;
      ghost var e, p := eq, parent;
      match tok {
        case Diacritic(a) => mid, q := ReadDiacritic(a);
        case Script(pos) => mid, s, q := ReadScript(pos);
        case Fraction => mid, s, q := ReadFraction();
        case _ =>
      }
      SuppliedWords(e, p, gsize, mid);
    }

    // One token: the body of the loop of eqn_parse().
    method Read(tok: Token) returns (ok: bool, ghost mid: Equation, ghost s: Box?, ghost q: Box?)
      requires Valid() && Readable(tok)
      modifies this, eq.links.Keys
      ensures fresh(eq.links.Keys - old(eq).links.Keys)
      ensures gsize == SizeAfter(tok, old(gsize))
      ensures ok ==> Valid() && Effect(tok, old(eq), old(parent), old(gsize), mid, s, q, eq, parent)
      ensures ok ==> Concat(Words(eq.tree, eq.words)) == Concat(Words(old(eq).tree, old(eq).words)) + TextOf(tok)
      ensures !ok ==> q != null && Fails(tok, old(eq), old(parent), q)
      ensures Escape.DeviceOnly(TextOf(tok)) ==> ok
    {
      hide Words, OnSpine, Chain, KidsAt, Rebuilt, Shaped, Texts, Counted, Limits, Rooted, Holds, Settled;
      hide SettledBut, Good, Leaves, Escape.DeviceOnly, Concat;
      ghost var e := eq;
      if IsText(tok) {
        mid, s := eq, null;
        ok, q := ReadText(tok);
        LeavesJoin(tok, e.infos[q].font);
        if ok {
          ConcatPlus(Words(e.tree, e.words), Leaves(tok, e.infos[q].font).value);
        }
      } else {
        hide Effect;
        ok := true;
        mid, s, q := ReadOther(tok);
      }
    }

    // eqn_parse(): each token has its effect, up to the first one with a text
    // where the escape scanner aborts, in the box q.
    method Parse(toks: seq<Token>)
      returns (ok: bool, ghost states: seq<State>, ghost steps: seq<Step>, ghost q: Box?)
      requires Valid() && forall i :: 0 <= i < |toks| ==> Readable(toks[i])
      modifies this, eq.links.Keys
      ensures fresh(eq.links.Keys - old(eq).links.Keys)
      ensures ok ==>
                && Valid()
                && Concat(Words(eq.tree, eq.words)) == Concat(Words(old(eq).tree, old(eq).words)) + TextsOf(toks)
      ensures |states| == |steps| + 1 && Follow(toks, states, steps)
      ensures states[0] == State(old(eq), old(parent), old(gsize))
      ensures
        var last := states[|steps|];
        if ok then |steps| == |toks| && last == State(eq, parent, gsize)
        else |steps| < |toks| && q != null && Fails(toks[|steps|], last.e, last.p, q)
      ensures (forall i :: 0 <= i < |toks| ==> Escape.DeviceOnly(TextOf(toks[i]))) ==> ok
    {
      hide Words, OnSpine, Shaped, Texts, Counted, Limits, Rooted, Holds, Settled, Good, Concat, Escape.DeviceOnly;
      hide Effect, Fails, Follow;
      ghost var base := Concat(Words(eq.tree, eq.words));
      assert toks[..0] == [] && base + [] == base;
      states, steps, q := [State(eq, parent, gsize)], [], null;
      FollowNone(toks, states[0]);
      for n := 0 to |toks|
        invariant Valid() && fresh(eq.links.Keys - old(eq).links.Keys)
        invariant Concat(Words(eq.tree, eq.words)) == base + TextsOf(toks[..n])
        invariant |steps| == n && |states| == n + 1 && Follow(toks, states, steps)
        invariant states[0] == State(old(eq), old(parent), old(gsize)) && states[n] == State(eq, parent, gsize)
      {
        ghost var mid, s;
        ok, mid, s, q := Read(toks[n]);
        if !ok {
          return;
        }
        FollowMore(toks, states, steps, Step(mid, s, q), State(eq, parent, gsize));
        steps, states := steps + [Step(mid, s, q)], states + [State(eq, parent, gsize)];
        assert toks[..n + 1][..n] == toks[..n];
        assert base + TextsOf(toks[..n]) + TextOf(toks[n]) == base + (TextsOf(toks[..n]) + TextOf(toks[n]));
      }
      assert toks[..|toks|] == toks;
      ok := true;
    }
  }

  /*** whole runs *****************************************************************/

  // Between two tokens: the equation, the place in it, and the global size.
  datatype State = State(e: Equation, p: Box, size: int)

  // What happens in between, as Effect() says.
  datatype Step = Step(mid: Equation, s: Box?, q: Box?)

  ghost predicate Follows(tok: Token, a: State, step: Step, b: State) {
    && Readable(tok) && b.size == SizeAfter(tok, a.size)
    && Good(a.e) && Settled(a.e) && Good(b.e) && Settled(b.e)
    && Effect(tok, a.e, a.p, a.size, step.mid, step.s, step.q, b.e, b.p)
  }

  ghost predicate Follow(toks: seq<Token>, states: seq<State>, steps: seq<Step>)
    requires |states| == |steps| + 1
  {
    |steps| <= |toks| && forall i :: 0 <= i < |steps| ==> Follows(toks[i], states[i], steps[i], states[i + 1])
  }

  lemma FollowNone(toks: seq<Token>, a: State)
    ensures Follow(toks, [a], [])
  {
  }

  lemma FollowMore(toks: seq<Token>, states: seq<State>, steps: seq<Step>, step: Step, b: State)
    requires |states| == |steps| + 1 && |steps| < |toks| && Follow(toks, states, steps)
    requires Follows(toks[|steps|], states[|steps|], step, b)
    ensures Follow(toks, states + [b], steps + [step])
  {
    hide Follows;
  }

  function SizeAfter(tok: Token, size: int): int {
    if tok.GlobalSize? && tok.size.Some? then tok.size.value else size
  }

  // The scanner aborts in the text of the token, which belongs into box q.
  ghost predicate Fails(tok: Token, e: Equation, p: Box, q: Box)
  {
    && IsText(tok) && Readable(tok) && Place(e, p)
    && Passed(e, Chain(e.tree, p), q, Full) && Leaves(tok, e.infos[q].font).None?
  }

  predicate Readable(tok: Token) {
    '\0' !in TextOf(tok) && (tok.Script? ==> tok.pos in {From, To, Sub, Sup})
  }

  // The texts of some tokens, one after the other.
  function TextsOf(toks: seq<Token>): string {
    if toks == [] then [] else TextsOf(toks[..|toks| - 1]) + TextOf(toks[|toks| - 1])
  }

  lemma SuppliedWords(e: Equation, p: Box, size: int, mid: Equation)
    ensures Supplied(e, p, size, mid) ==> Concat(Words(mid.tree, mid.words)) == Concat(Words(e.tree, e.words))
  {
    hide Words, Concat, OnSpine, Chain;
    if Supplied(e, p, size, mid) {
      var leaf := Leaf("", e.infos[p].font);
      ConcatOne(leaf);
      ConcatPlus(Words(e.tree, e.words), [leaf]);
      assert Words(e.tree, e.words) + [] == Words(e.tree, e.words);
    }
  }

  lemma NestedFits(tok: Token)
    requires Nests(tok)
    ensures
      forall font: Font, size: int ::
        var i := Nested(tok, NEWBOX.(font := font, size := size)); i.text == None && i.args == 0 && Fits(i)
  {
  }
}
