// Which equations eqn_parse() in userland/mandoc/eqn.c reads, and the tree that
// it makes of each of them.
module EqnRead {
  import opened Options
  import opened EqnTree
  import opened EqnState
  import opened EqnShape
  import opened EqnParse
  import opened EqnMachine
  import EqnWords

  /*** equations and how they are written *****************************************/

  // A text, a word split into several texts, equations in braces or fences, a pile of rows, a matrix, an
  // accented operand, a root, an operand with one or two scripts or limits,
  // and a fraction; a row is only part of a pile.
  datatype Eqn =
    | Atom(tok: Token)
    | Split(tok: Token)
    | Enclosed(fence: Option<(string, string)>, items: seq<Eqn>)
    | Piled(rows: seq<Eqn>)
    | Row(items: seq<Eqn>)
    | InMatrix(items: seq<Eqn>)
    | WithAccent(arg: Eqn, accent: Accent)
    | RootOf(arg: Eqn)
    | OneScript(base: Eqn, pos: Pos, arg: Eqn)
    | TwoScripts(base: Eqn, low: Pos, first: Eqn, second: Eqn)
    | Quotient(num: Eqn, den: Eqn)

  function Opening(fence: Option<(string, string)>): Token {
    match fence
    case None => BraceOpen
    case Some((l, _)) => Left(Some(l))
  }

  function Ending(fence: Option<(string, string)>): Token {
    match fence
    case None => BraceClose
    case Some((_, r)) => Right(Some(r))
  }

  // The second script or limit.
  function High(low: Pos): Pos {
    if low == Sub then Sup else To
  }

  function Tokens(e: Eqn): seq<Token>
    decreases e
  {
    match e
    case Atom(tok) => [tok]
    case Split(tok) => [tok]
    case Enclosed(fence, items) => [Opening(fence)] + TokensAll(items) + [Ending(fence)]
    case Piled(rows) => [Column] + [BraceOpen] + TokensRows(rows) + [BraceClose]
    case Row(items) => TokensAll(items)
    case InMatrix(items) => [Columns] + [BraceOpen] + TokensAll(items) + [BraceClose]
    case WithAccent(arg, accent) => Tokens(arg) + [Diacritic(accent)]
    case RootOf(arg) => [Root] + Tokens(arg)
    case OneScript(base, pos, arg) => Tokens(base) + [Script(pos)] + Tokens(arg)
    case TwoScripts(base, low, first, second) =>
      Tokens(base) + [Script(low)] + Tokens(first) + [Script(High(low))] + Tokens(second)
    case Quotient(num, den) => Tokens(num) + [Fraction] + Tokens(den)
  }

  function TokensAll(es: seq<Eqn>): seq<Token>
    decreases es
  {
    if es == [] then [] else TokensAll(es[..|es| - 1]) + Tokens(es[|es| - 1])
  }

  // The rows with the token above between them.
  function TokensRows(es: seq<Eqn>): seq<Token>
    decreases es
  {
    if es == [] then []
    else if |es| == 1 then Tokens(es[0])
    else TokensRows(es[..|es| - 1]) + [Next] + Tokens(es[|es| - 1])
  }

  // Equations that stay together as an operand without braces.
  predicate Simple(e: Eqn) {
    e.Atom? || e.Enclosed? || e.Piled? || e.InMatrix? || e.WithAccent?
  }

  predicate Single(e: Eqn) {
    Simple(e) || e.RootOf?
  }

  // Behind an operator, a word can also be one that is split.
  predicate Argument(e: Eqn) {
    Single(e) || e.Split?
  }

  // From and to.
  predicate HasLimits(e: Eqn) {
    (e.OneScript? && e.pos in {From, To}) || (e.TwoScripts? && e.low == From)
  }

  // Operands are in braces where needed, and so is a word that is split if it
  // comes in front of an operator.
  // There are no limits inside of scripts, roots, and denominators.
  predicate WellFormed(e: Eqn, inside: bool)
    decreases e
  {
    match e
    case Atom(tok) =>
      IsText(tok) && '\0' !in tok.text && Leaves(tok, NoFont).Some? && |Leaves(tok, NoFont).value| == 1
    case Split(tok) =>
      IsText(tok) && '\0' !in tok.text && Leaves(tok, NoFont).Some? && |Leaves(tok, NoFont).value| >= 2
    case Enclosed(_, items) => WellFormedAll(items, inside)
    case Piled(rows) => rows != [] && WellFormedRows(rows, inside)
    case Row(_) => false
    case InMatrix(items) => WellFormedAll(items, inside)
    case WithAccent(arg, _) => Simple(arg) && WellFormed(arg, inside)
    case RootOf(arg) => Argument(arg) && WellFormed(arg, true)
    case OneScript(base, pos, arg) =>
      && WellFormed(base, inside) && Argument(arg) && !base.Split?
      && (if pos in {From, To} then !inside && !HasLimits(base) && WellFormed(arg, false)
          else pos in {Sub, Sup} && Single(base) && WellFormed(arg, true))
    case TwoScripts(base, low, first, second) =>
      && WellFormed(base, inside) && Argument(first) && Argument(second) && !base.Split?
      && (if low == From then !inside && !HasLimits(base) && WellFormed(first, false) && WellFormed(second, false)
          else low == Sub && Single(base) && WellFormed(first, true) && WellFormed(second, true))
    case Quotient(num, den) => WellFormed(num, inside) && !num.Split? && Argument(den) && WellFormed(den, true)
  }

  predicate WellFormedAll(es: seq<Eqn>, inside: bool)
    decreases es
  {
    es != [] ==> WellFormedAll(es[..|es| - 1], inside) && WellFormed(es[|es| - 1], inside)
  }

  predicate WellFormedRows(es: seq<Eqn>, inside: bool)
    decreases es
  {
    es != [] ==>
      var e := es[|es| - 1];
      WellFormedRows(es[..|es| - 1], inside) && e.Row? && WellFormedAll(e.items, inside)
  }

  /*** the tree of an equation *****************************************************/

  function Plain(kind: Kind, size: int): Info {
    Info(None, None, None, None, None, None, 0, size, kind, NoFont, NoPos)
  }

  // A box with so many operands in this position.
  function Positioned(n: nat, pos: Pos, size: int): Info {
    Info(None, None, None, None, None, Some(n), n, size, Subexpr, NoFont, pos)
  }

  // Function names are roman, and quoted texts and letters are italic.
  function FontFor(tok: Token): Font
    requires IsText(tok)
  {
    match tok
    case Func(_) => Roman
    case Quoted(_) => Italic
    case Symbol(_) => NoFont
    case Word(s) => if s == [] then NoFont else if EqnWords.IsAlpha(s[0]) then Italic else Roman
  }

  lemma OneLeaf(tok: Token)
    requires IsText(tok) && '\0' !in tok.text && Leaves(tok, NoFont).Some? && |Leaves(tok, NoFont).value| == 1
    ensures Leaves(tok, NoFont).value[0] == Leaf(tok.text, FontFor(tok))
  {
    hide EqnWords.Pieces;
    if tok.Word? && tok.text != [] {
      EqnWords.OnePiece(tok.text);
    }
  }

  function BoxOf(e: Eqn, size: int): Shape
    requires WellFormed(e, false) || WellFormed(e, true)
    decreases e, 0
  {
    match e
    case Atom(tok) => Shape(Plain(Text, size).(text := Some(tok.text), font := FontFor(tok)), [])
    case Split(tok) =>
      var ls := Leaves(tok, NoFont).value;
      Shape(Plain(List, size).(args := |ls| - 1), Letters(ls, size))
    case Enclosed(fence, items) =>
      var ss := BoxesOf(items, size);
      var i := Plain(List, size).(args := |ss|);
      Shape(
        match fence
        case None => i
        case Some((l, r)) => i.(left := Some(LeftFence(l)), right := Some(RightFence(r))),
        ss)
    case Piled(rows) => Shape(Plain(Pile, size).(expectargs := Some(1), args := |rows|), RowBoxes(rows, size))
    case InMatrix(items) =>
      var ss := BoxesOf(items, size);
      Shape(Plain(Matrix, size).(expectargs := Some(1), args := 1), [Shape(Plain(List, size).(args := |ss|), ss)])
    case WithAccent(arg, a) =>
      Shape(Plain(List, size).(expectargs := Some(1), args := 1, font := Roman, top := Above(a), bottom := Below(a)),
            [BoxOf(arg, size)])
    case RootOf(arg) => Shape(Positioned(1, Sqrt, size), [BoxOf(arg, size)])
    case OneScript(base, pos, arg) => Shape(Positioned(2, pos, size), [BoxOf(base, size), BoxOf(arg, size)])
    case TwoScripts(base, low, first, second) =>
      Shape(Positioned(3, if low == Sub then SubSup else FromTo, size),
            [BoxOf(base, size), BoxOf(first, size), BoxOf(second, size)])
    case Quotient(num, den) => Shape(Positioned(2, Over, size), [BoxOf(num, size), BoxOf(den, size)])
  }

  // The list for a word has all its pieces, but the first one does not count.
  function Letters(ls: seq<Leaf>, size: int): (ss: seq<Shape>)
    ensures |ss| == |ls|
  {
    seq(|ls|, i requires 0 <= i < |ls| => Shape(Plain(Text, size).(text := Some(ls[i].text), font := ls[i].font), []))
  }

  // The pieces of a word are boxes next to each other in a list.
  function BoxesOf(es: seq<Eqn>, size: int): (ss: seq<Shape>)
    requires WellFormedAll(es, false) || WellFormedAll(es, true)
    decreases es, 0
  {
    if es == [] then [] else BoxesOf(es[..|es| - 1], size) + ItemBoxes(es[|es| - 1], size)
  }

  function ItemBoxes(e: Eqn, size: int): (ss: seq<Shape>)
    requires WellFormed(e, false) || WellFormed(e, true)
    decreases e, 1
  {
    if e.Split? then Letters(Leaves(e.tok, NoFont).value, size) else [BoxOf(e, size)]
  }

  function RowBoxes(es: seq<Eqn>, size: int): (ss: seq<Shape>)
    requires WellFormedRows(es, false) || WellFormedRows(es, true)
    ensures |ss| == |es|
    decreases es, 0
  {
    if es == [] then []
    else
      var ss := BoxesOf(es[|es| - 1].items, size);
      RowBoxes(es[..|es| - 1], size) + [Shape(Plain(List, size).(args := |ss|), ss)]
  }

  /*** moves of tokens **************************************************************/

  // Reading these tokens leads from fs to gs.
  predicate Reads(toks: seq<Token>, fs: seq<Shape>, size: int, gs: seq<Shape>)
    requires fs != []
  {
    if toks == [] then gs == fs
    else
      && Readable(toks[0]) && !toks[0].GlobalSize? && Scans(toks[0], fs)
      && Reads(toks[1..], Move(toks[0], fs, size), size, gs)
  }

  lemma {:induction false} ReadsOn(a: seq<Token>, b: seq<Token>, fs: seq<Shape>, size: int, gs: seq<Shape>,
                                    hs: seq<Shape>)
    requires fs != [] && gs != [] && Reads(a, fs, size, gs) && Reads(b, gs, size, hs)
    ensures Reads(a + b, fs, size, hs)
  {
    hide Readable, Scans, Move;
    if a == [] {
      assert a + b == b;
    } else {
      ReadsOn(a[1..], b, Move(a[0], fs, size), size, gs, hs);
      assert (a + b)[1..] == a[1..] + b;
    }
  }

  lemma ReadsOne(tok: Token, fs: seq<Shape>, size: int)
    requires fs != [] && Readable(tok) && !tok.GlobalSize? && Scans(tok, fs)
    ensures Reads([tok], fs, size, Move(tok, fs, size))
  {
    hide Readable, Scans, Move;
    assert Reads([], Move(tok, fs, size), size, Move(tok, fs, size));
    assert [tok][1..] == [];
  }

  /*** frames ***********************************************************************/

  function PutAll(fs: seq<Shape>, ss: seq<Shape>): (r: seq<Shape>)
    requires fs != []
    ensures |r| == |fs|
  {
    var t := Top(fs);
    Retop(fs, Shape(t.info.(args := t.info.args + |ss|), t.kids + ss))
  }

  lemma PutOne(fs: seq<Shape>, s: Shape)
    requires fs != []
    ensures PutAll(fs, [s]) == Put(fs, s) && PutAll(fs, []) == fs
    ensures Top(Put(fs, s)).kids != [] && Top(Put(fs, s)).info == Top(fs).info.(args := Top(fs).info.args + 1)
  {
    var t := Top(fs);
    assert t.kids + [] == t.kids && t.info.(args := t.info.args + 0) == t.info;
    assert fs == fs[..|fs| - 1] + [t];
  }

  lemma PutMore(fs: seq<Shape>, ss: seq<Shape>, s: Shape)
    requires fs != []
    ensures Put(PutAll(fs, ss), s) == PutAll(fs, ss + [s])
  {
    assert Top(fs).kids + ss + [s] == Top(fs).kids + (ss + [s]);
  }

  // A new box with children, as seen from outside.
  lemma UpNested(fs: seq<Shape>, info: Info, ss: seq<Shape>)
    requires fs != []
    ensures
      var g := PutAll(Push(fs, info), ss);
      var i := info.(args := info.args + |ss|);
      && |g| >= 2 && Top(g) == Shape(i, ss) && Up(g) == Put(fs, Shape(i, ss))
  {
    var t, g := Top(fs), PutAll(Push(fs, info), ss);
    assert [] + ss == ss;
    assert g[..|fs|] == Retop(fs, t.(info := t.info.(args := t.info.args + 1)));
  }

  // A new box around the last child with more children.
  lemma UpGrouped(fs: seq<Shape>, b: Shape, info: Info, ss: seq<Shape>)
    requires fs != []
    ensures
      var g := PutAll(Group(Put(fs, b), info), ss);
      var i := info.(args := info.args + |ss|);
      && |g| >= 2 && Top(g) == Shape(i, [b] + ss) && Up(g) == Put(fs, Shape(i, [b] + ss))
      && Top(Up(g)).info == Top(fs).info.(args := Top(fs).info.args + 1)
  {
    var t, h := Top(fs), Put(fs, b);
    assert (t.kids + [b])[..|t.kids|] == t.kids;
    var g := PutAll(Group(h, info), ss);
    assert g[..|fs|] == Retop(h, Top(h).(kids := t.kids));
  }

  // It gets other contents before its last child.
  lemma UpFilled(fs: seq<Shape>, b: Shape, info: Info, a: Shape, now: Info, c: Shape)
    requires fs != []
    ensures
      var g := Put(Fill(Put(Group(Put(fs, b), info), a), now), c);
      var i := now.(args := now.args + 1);
      && |g| >= 2 && Top(g) == Shape(i, [b, a, c]) && Up(g) == Put(fs, Shape(i, [b, a, c]))
      && Top(Up(g)).info == Top(fs).info.(args := Top(fs).info.args + 1)
  {
    UpGrouped(fs, b, info, [a]);
    PutOne(Group(Put(fs, b), info), a);
    var m := Put(Group(Put(fs, b), info), a);
    var g := Put(Fill(m, now), c);
    assert g[..|m| - 1] == m[..|m| - 1];
    assert [b] + [a] + [c] == [b, a, c];
    var out := m[..|m| - 1];
    assert Top(out).kids + [Top(m)] == Top(Put(fs, Top(m))).kids;
  }

  /*** boxes that are full ***********************************************************/

  // Closing boxes with the property f leads from r to h.
  predicate Trail(r: seq<Shape>, h: seq<Shape>, f: Info -> bool)
    decreases |r|
  {
    r == h || (|r| >= 2 && f(Top(r).info) && Top(r).kids != [] && Trail(Up(r), h, f))
  }

  // A root with its operand.
  predicate Rooted(i: Info) {
    i.expectargs == Some(1) && i.args == 1 && i.kind == Subexpr && i.pos == Sqrt
  }

  // An operator with all its operands.
  predicate Closed(i: Info) {
    i.kind == Subexpr && i.expectargs.Some? && i.expectargs.value >= 2 && i.args == i.expectargs.value
  }

  // From the place r, closing the last item leads to h: there can be roots,
  // and one operator m around them.
  predicate Ended(r: seq<Shape>, m: seq<Shape>, h: seq<Shape>, limits: bool) {
    && r != [] && m != [] && h != [] && Trail(r, m, Rooted)
    && (m == h ||
        (|m| >= 2 && Closed(Top(m).info) && Top(m).kids != [] && (limits || InPosition(Top(m).info)) && Up(m) == h))
  }

  lemma {:induction false} TrailUp(r: seq<Shape>, h: seq<Shape>, f: Info -> bool)
    requires r != [] && h != [] && Trail(r, h, Rooted) && !f(Top(h).info) && forall i: Info :: Rooted(i) ==> f(i)
    ensures UpWhile(r, f) == h
    decreases |r|
  {
    hide Rooted, Up, Top;
    if r != h {
      TrailUp(Up(r), h, f);
    }
  }

  lemma {:induction false} TrailTo(r: seq<Shape>, h: seq<Shape>, f: Info -> bool)
    requires r != [] && h != [] && Trail(r, h, Rooted) && forall i: Info :: Rooted(i) ==> !f(i)
    ensures UpTo(r, f) == UpTo(h, f)
    decreases |r|
  {
    hide Rooted, Up, Top;
    if r != h {
      TrailTo(Up(r), h, f);
    }
  }

  lemma {:induction false} TrailMore(r: seq<Shape>, m: seq<Shape>, h: seq<Shape>, f: Info -> bool)
    requires Trail(r, m, f) && Trail(m, h, f)
    ensures Trail(r, h, f)
    decreases |r|
  {
    hide Up, Top;
    if r != m {
      TrailMore(Up(r), m, h, f);
    }
  }

  lemma EndedFull(r: seq<Shape>, m: seq<Shape>, h: seq<Shape>, limits: bool)
    requires Ended(r, m, h, limits) && !Full(Top(h).info)
    ensures UpWhile(r, Full) == h
  {
    hide Up, Top, Trail;
    if m == h {
      TrailUp(r, h, Full);
    } else {
      FullOn(r, m);
    }
  }

  lemma {:induction false} FullOn(r: seq<Shape>, m: seq<Shape>)
    requires r != [] && m != [] && Trail(r, m, Rooted)
    ensures UpWhile(r, Full) == UpWhile(m, Full)
    decreases |r|
  {
    hide Up, Top;
    if r != m {
      FullOn(Up(r), m);
    }
  }

  lemma EndedAlone(r: seq<Shape>, m: seq<Shape>, h: seq<Shape>, limits: bool)
    requires Ended(r, m, h, limits) && !Alone(Top(h).info)
    ensures UpWhile(r, Alone) == m
  {
    hide Up, Top, Trail;
    TrailUp(r, m, Alone);
  }

  // The innermost box around the items.
  lemma EndedTo(r: seq<Shape>, m: seq<Shape>, h: seq<Shape>, limits: bool, f: Info -> bool)
    requires Ended(r, m, h, limits) && f(Top(h).info) && forall i: Info :: i.kind == Subexpr ==> !f(i)
    ensures UpTo(r, f) == Some(h)
  {
    hide Up, Top, Trail;
    TrailTo(r, m, f);
  }

  lemma EndedKids(r: seq<Shape>, m: seq<Shape>, h: seq<Shape>, limits: bool, size: int)
    requires Ended(r, m, h, limits) && Top(h).kids != []
    ensures Supply(r, size) == r
  {
    hide Up, Top;
  }

  // No box has a position.
  predicate Free(fs: seq<Shape>) {
    forall i :: 0 <= i < |fs| ==> !InPosition(fs[i].info)
  }

  lemma {:induction false} FreeNone(fs: seq<Shape>)
    requires fs != [] && Free(fs)
    ensures UpTo(fs, InPosition) == None
    decreases |fs|
  {
    hide InPosition;
    if |fs| >= 2 {
      var g := Up(fs);
      assert forall i :: 0 <= i < |g| ==> g[i].info == fs[i].info;
      FreeNone(g);
    }
  }

  // Boxes around items and operands.
  predicate Host(i: Info) {
    i.expectargs == None && i.font == NoFont && i.pos == NoPos && (i.kind == Text || i.kind == List)
  }

  predicate Slot(i: Info) {
    !Full(i) && i.font == NoFont && i.kind != Pile && i.kind != Matrix && (i.kind == List ==> i.expectargs == None)
  }

  lemma FreePush(fs: seq<Shape>, info: Info)
    requires fs != [] && Free(fs) && !InPosition(info)
    ensures Free(Push(fs, info))
  {
  }

  lemma FreePut(fs: seq<Shape>, ss: seq<Shape>)
    requires fs != [] && Free(fs)
    ensures Free(PutAll(fs, ss))
  {
  }

  lemma FreeGroup(fs: seq<Shape>, info: Info)
    requires fs != [] && Free(fs) && Top(fs).kids != [] && !InPosition(info)
    ensures Free(Group(fs, info))
  {
  }

  lemma FreeFill(fs: seq<Shape>, info: Info)
    requires fs != [] && Free(fs) && !InPosition(info)
    ensures Free(Fill(fs, info))
  {
  }

  /*** operands ************************************************************************/

  lemma AtomReads(e: Eqn, g: seq<Shape>, fs: seq<Shape>, inside: bool, size: int)
    requires e.Atom? && WellFormed(e, inside) && g != [] && UpWhile(g, Full) == fs && Top(fs).info.font == NoFont
    ensures Reads(Tokens(e), g, size, Put(fs, BoxOf(e, size)))
  {
    hide UpWhile, Put, Leaves, Reads, FontFor, Worded, Lettering;
    OneLeaf(e.tok);
    var ls := Leaves(e.tok, NoFont).value;
    assert ls == [ls[0]];
    WordedOne(fs, ls[0], size);
    assert Lettering(Leaf(e.tok.text, FontFor(e.tok)), size) == BoxOf(e, size) by {
      LetteringIs(e, size);
    }
    ReadsOne(e.tok, g, size);
  }

  lemma LetteringIs(e: Eqn, size: int)
    requires e.Atom? && WellFormed(e, false)
    ensures Lettering(Leaf(e.tok.text, FontFor(e.tok)), size) == BoxOf(e, size)
  {
    hide Leaves, FontFor;
  }

  // There is room for just one more operand.
  predicate OneRoom(i: Info) {
    i.kind == Subexpr && i.expectargs == Some(i.args + 1)
  }

  // The pieces behind the first one go into the list.
  lemma {:induction false} ListPieces(fs: seq<Shape>, ls: seq<Leaf>, size: int)
    requires fs != [] && |ls| >= 2 && OneRoom(Top(fs).info) && Top(fs).info.font == NoFont
    ensures
      var l := Lettering(ls[0], size);
      Pieced(fs, ls, size) == PutAll(Group(Put(fs, l), Plain(List, size)), Letters(ls, size)[1..])
    decreases |ls|
  {
    hide Put, PutAll, Group, Pieced;
    var n := |ls| - 1;
    var l, list := Lettering(ls[0], size), Plain(List, size);
    PutOne(fs, l);
    var g := Group(Put(fs, l), list);
    assert ls == ls[..n] + [ls[n]];
    PiecedMore(fs, ls[..n], ls[n], size);
    UpGrouped(fs, l, list, Letters(ls[..n], size)[1..]);
    PutMore(g, Letters(ls[..n], size)[1..], Lettering(ls[n], size));
    assert Letters(ls, size)[1..] == Letters(ls[..n], size)[1..] + [Lettering(ls[n], size)];
    if n == 1 {
      assert ls[..1] == [ls[0]];
      WordedOne(fs, ls[0], size);
      PutOne(g, l);
    } else {
      ListPieces(fs, ls[..n], size);
    }
  }

  lemma SplitReads(e: Eqn, g: seq<Shape>, fs: seq<Shape>, inside: bool, size: int)
    requires e.Split? && WellFormed(e, inside) && g != [] && UpWhile(g, Full) == fs && Top(fs).info.font == NoFont
    requires OneRoom(Top(fs).info)
    ensures Reads(Tokens(e), g, size, Put(fs, BoxOf(e, size)))
  {
    hide UpWhile, Put, PutAll, Leaves, Reads, Lettering, Group, Pieced, Up;
    var ls := Leaves(e.tok, NoFont).value;
    var l, list := Lettering(ls[0], size), Plain(List, size);
    ListPieces(fs, ls, size);
    PutOne(fs, l);
    UpGrouped(fs, l, list, Letters(ls, size)[1..]);
    assert [l] + Letters(ls, size)[1..] == Letters(ls, size) by {
      LettersFirst(ls, size);
    }
    var p := Pieced(fs, ls, size);
    assert |p| == |fs| + 1 && Worded(fs, ls, size) == Up(p) == Put(fs, BoxOf(e, size));
    ReadsOne(e.tok, g, size);
  }

  lemma LettersFirst(ls: seq<Leaf>, size: int)
    requires ls != []
    ensures [Lettering(ls[0], size)] + Letters(ls, size)[1..] == Letters(ls, size)
  {
  }

  lemma AccentReads(e: Eqn, fs: seq<Shape>, inside: bool, size: int)
    requires e.WithAccent? && WellFormed(e, inside) && fs != []
    ensures Reads([Diacritic(e.accent)], Put(fs, BoxOf(e.arg, size)), size, Put(fs, BoxOf(e, size)))
  {
    hide Reads, Put, Group, Up, Top;
    var b, info := BoxOf(e.arg, size), Accented(e.accent, size);
    var g := Put(fs, b);
    PutOne(fs, b);
    UpGrouped(fs, b, info, []);
    PutOne(Group(g, info), b);
    assert [b] + [] == [b] && info.(args := info.args + 0) == info;
    ReadsOne(Diacritic(e.accent), g, size);
    assert BoxOf(e, size) == Shape(info, [b]);
  }

  // The end of braces, or of fences.
  lemma EndingReads(e: Eqn, fs: seq<Shape>, r: seq<Shape>, m: seq<Shape>, inside: bool, size: int)
    requires e.Enclosed? && WellFormed(e, inside) && fs != [] && Slot(Top(fs).info) && r != []
    requires
      var h := Push(fs, Nested(Opening(e.fence), NEWBOX.(size := size)));
      Ended(r, m, PutAll(h, BoxesOf(e.items, size)), true)
    ensures Reads([Ending(e.fence)], r, size, Put(fs, BoxOf(e, size)))
  {
    hide Reads, Put, PutAll, Push, Up, Top, Retop, Ended, UpTo, BoxesOf, WellFormedAll;
    var info, ss := Nested(Opening(e.fence), NEWBOX.(size := size)), BoxesOf(e.items, size);
    var h := PutAll(Push(fs, info), ss);
    UpNested(fs, info, ss);
    ReadsOne(Ending(e.fence), r, size);
    match e.fence
    case None =>
      EndedTo(r, m, h, true, IsBrace);
      LeaveSlot(fs, h, BoxOf(e, size), true);
    case Some((left, right)) =>
      EndedTo(r, m, h, true, IsFence);
      var now := Top(h).info.(right := Some(RightFence(right)));
      FillNested(fs, info, ss, now);
      LeaveSlot(fs, Fill(h, now), BoxOf(e, size), false);
  }

  lemma FillNested(fs: seq<Shape>, info: Info, ss: seq<Shape>, now: Info)
    requires fs != []
    ensures
      var g := Fill(PutAll(Push(fs, info), ss), now);
      |g| >= 2 && Top(g) == Shape(now, ss) && Up(g) == Put(fs, Shape(now, ss))
  {
    var t, g := Top(fs), Fill(PutAll(Push(fs, info), ss), now);
    assert [] + ss == ss;
    assert g[..|fs|] == Retop(fs, t.(info := t.info.(args := t.info.args + 1)));
  }

  lemma LeaveSlot(fs: seq<Shape>, h: seq<Shape>, s: Shape, brace: bool)
    requires fs != [] && Slot(Top(fs).info) && |h| >= 2 && Up(h) == Put(fs, s)
    ensures Behind(h, brace) == Put(fs, s)
  {
    hide Up, Put, Top;
    PutOne(fs, s);
  }

  // A root in front of its operand.
  lemma RootReads(g: seq<Shape>, fs: seq<Shape>, size: int)
    requires g != [] && UpWhile(g, Full) == fs && Top(fs).info.font == NoFont
    ensures
      var info := Positioned(1, Sqrt, size).(args := 0);
      && Reads([Root], g, size, Push(fs, info)) && Slot(Top(Push(fs, info)).info) && OneRoom(Top(Push(fs, info)).info)
      && UpWhile(Push(fs, info), Full) == Push(fs, info)
  {
    hide Reads;
    ReadsOne(Root, g, size);
  }

  lemma OpeningReads(e: Eqn, g: seq<Shape>, fs: seq<Shape>, inside: bool, size: int)
    requires e.Enclosed? && g != [] && UpWhile(g, Full) == fs && Top(fs).info.font == NoFont && (inside || Free(fs))
    ensures
      var h := Push(fs, Nested(Opening(e.fence), NEWBOX.(size := size)));
      && Reads([Opening(e.fence)], g, size, h) && Host(Top(h).info) && (inside || Free(h))
  {
    hide Reads;
    ReadsOne(Opening(e.fence), g, size);
  }

  // An operand goes into the innermost box that is not full.
  lemma {:induction false} ArgumentReads(e: Eqn, g: seq<Shape>, fs: seq<Shape>, inside: bool, size: int)
    returns (r: seq<Shape>)
    requires WellFormed(e, inside) && Argument(e) && g != [] && UpWhile(g, Full) == fs && Slot(Top(fs).info)
             && (inside || Free(fs)) && (e.Split? ==> OneRoom(Top(fs).info))
    ensures r != [] && Reads(Tokens(e), g, size, r) && Trail(r, Put(fs, BoxOf(e, size)), Rooted)
    ensures Simple(e) ==> r == Put(fs, BoxOf(e, size))
    decreases e, 1
  {
    hide Reads, Put, PutAll, Push, Up, Top, Retop, UpWhile, Host, Free, Ended, Leaves;
    r := Put(fs, BoxOf(e, size));
    match e
    case Atom(_) => AtomReads(e, g, fs, inside, size);
    case Split(_) => SplitReads(e, g, fs, inside, size);
    case Enclosed(fence, items) =>
      OpeningReads(e, g, fs, inside, size);
      var h := Push(fs, Nested(Opening(fence), NEWBOX.(size := size)));
      var r1, m1 := ItemsReads(items, h, inside, size);
      EndingReads(e, fs, r1, m1, inside, size);
      ReadsOn([Opening(fence)], TokensAll(items), g, size, h, r1);
      ReadsOn([Opening(fence)] + TokensAll(items), [Ending(fence)], g, size, r1, r);
    case Piled(rows) => r := PileReads(e, g, fs, inside, size);
    case InMatrix(items) => r := MatrixReads(e, g, fs, inside, size);
    case WithAccent(arg, a) =>
      var r1 := ArgumentReads(arg, g, fs, inside, size);
      AccentReads(e, fs, inside, size);
      ReadsOn(Tokens(arg), [Diacritic(a)], g, size, r1, r);
    case RootOf(arg) =>
      RootReads(g, fs, size);
      var info, b := Positioned(1, Sqrt, size).(args := 0), BoxOf(arg, size);
      var h := Push(fs, info);
      var r1 := ArgumentReads(arg, h, h, true, size);
      UpNested(fs, info, [b]);
      PutOne(h, b);
      TrailRoot(Put(h, b), Put(fs, BoxOf(e, size)));
      TrailMore(r1, Put(h, b), Put(fs, BoxOf(e, size)), Rooted);
      ReadsOn([Root], Tokens(arg), g, size, h, r1);
      r := r1;
  }

  lemma TopPush(fs: seq<Shape>, info: Info)
    requires fs != []
    ensures Top(Push(fs, info)) == Shape(info, [])
    ensures !Full(info) ==> UpWhile(Push(fs, info), Full) == Push(fs, info)
  {
  }

  // A pile or matrix is opened with its brace.
  lemma PairReads(tok: Token, g: seq<Shape>, fs: seq<Shape>, inside: bool, size: int)
    requires (tok.Column? || tok.Columns?) && g != [] && UpWhile(g, Full) == fs && Top(fs).info.font == NoFont
    requires inside || Free(fs)
    ensures
      var p := Push(fs, Plain(if tok.Column? then Pile else Matrix, size).(expectargs := Some(1)));
      var h := Push(p, Plain(List, size));
      && Reads([tok] + [BraceOpen], g, size, h) && Host(Top(h).info) && (inside || Free(h)) && (inside || Free(p))
      && Top(p).info == Plain(if tok.Column? then Pile else Matrix, size).(expectargs := Some(1))
  {
    hide Reads, Free, Push;
    var info := Plain(if tok.Column? then Pile else Matrix, size).(expectargs := Some(1));
    var p := Push(fs, info);
    ReadsOne(tok, g, size);
    TopPush(fs, info);
    TopPush(p, Plain(List, size));
    if !inside {
      FreePush(fs, info);
      FreePush(p, Plain(List, size));
    }
    ReadsOne(BraceOpen, p, size);
    ReadsOn([tok], [BraceOpen], g, size, p, Push(p, Plain(List, size)));
  }

  // The brace that ends a pile or matrix with these rows before the last one.
  lemma PairEnds(fs: seq<Shape>, info: Info, ss: seq<Shape>, s: Shape, r: seq<Shape>, m: seq<Shape>, size: int)
    requires fs != [] && Slot(Top(fs).info) && r != [] && info.kind in {Pile, Matrix} && info.args == 0
    requires s.info == Plain(List, size).(args := |s.kids|)
    requires Ended(r, m, PutAll(Push(PutAll(Push(fs, info), ss), Plain(List, size)), s.kids), true)
    ensures Reads([BraceClose], r, size, Put(fs, Shape(info.(args := |ss| + 1), ss + [s])))
  {
    hide Reads, Put, PutAll, Push, Up, Top, Retop, Ended, UpTo;
    var list := Plain(List, size);
    var p := PutAll(Push(fs, info), ss);
    var h := PutAll(Push(p, list), s.kids);
    UpNested(p, list, s.kids);
    assert Up(h) == Put(p, s);
    PutMore(Push(fs, info), ss, s);
    UpNested(fs, info, ss + [s]);
    EndedTo(r, m, h, true, IsBrace);
    ReadsOne(BraceClose, r, size);
    LeavePair(fs, h, Shape(info.(args := |ss| + 1), ss + [s]));
  }

  lemma LeavePair(fs: seq<Shape>, h: seq<Shape>, s: Shape)
    requires fs != [] && Slot(Top(fs).info) && |h| >= 3 && Up(Up(h)) == Put(fs, s)
    requires Top(Up(h)).info.kind in {Pile, Matrix}
    ensures Behind(h, true) == Put(fs, s)
  {
    hide Up, Put, Top;
    PutOne(fs, s);
  }

  lemma {:induction false} MatrixReads(e: Eqn, g: seq<Shape>, fs: seq<Shape>, inside: bool, size: int)
    returns (r: seq<Shape>)
    requires e.InMatrix? && WellFormed(e, inside) && g != [] && UpWhile(g, Full) == fs && Slot(Top(fs).info)
             && (inside || Free(fs))
    ensures r == Put(fs, BoxOf(e, size)) && Reads(Tokens(e), g, size, r)
    decreases e, 0
  {
    hide Reads, Put, PutAll, Push, Up, Top, Retop, UpWhile, Host, Free, Ended, Leaves;
    PairReads(Columns, g, fs, inside, size);
    var info, list := Plain(Matrix, size).(expectargs := Some(1)), Plain(List, size);
    var p := Push(fs, info);
    var h := Push(p, list);
    var r1, m1 := ItemsReads(e.items, h, inside, size);
    PutOne(p, Shape(list, []));
    var ss := BoxesOf(e.items, size);
    PairEnds(fs, info, [], Shape(list.(args := |ss|), ss), r1, m1, size);
    r := Put(fs, BoxOf(e, size));
    assert BoxOf(e, size).kids == [] + [Shape(list.(args := |ss|), ss)];
    ReadsOn([Columns] + [BraceOpen], TokensAll(e.items), g, size, h, r1);
    ReadsOn([Columns] + [BraceOpen] + TokensAll(e.items), [BraceClose], g, size, r1, r);
  }

  lemma {:induction false} PileReads(e: Eqn, g: seq<Shape>, fs: seq<Shape>, inside: bool, size: int)
    returns (r: seq<Shape>)
    requires e.Piled? && WellFormed(e, inside) && g != [] && UpWhile(g, Full) == fs && Slot(Top(fs).info)
             && (inside || Free(fs))
    ensures r == Put(fs, BoxOf(e, size)) && Reads(Tokens(e), g, size, r)
    decreases e, 0
  {
    hide Reads, Put, PutAll, Push, Up, Top, Retop, UpWhile, Host, Free, Ended, Leaves;
    PairReads(Column, g, fs, inside, size);
    var info, list, n := Plain(Pile, size).(expectargs := Some(1)), Plain(List, size), |e.rows| - 1;
    var p := Push(fs, info);
    var h := Push(p, list);
    var r1, m1 := RowsReads(e.rows, p, inside, size);
    var ss := BoxesOf(e.rows[n].items, size);
    var s := Shape(list.(args := |ss|), ss);
    PairEnds(fs, info, RowBoxes(e.rows[..n], size), s, r1, m1, size);
    r := Put(fs, BoxOf(e, size));
    assert BoxOf(e, size) == Shape(info.(args := n + 1), RowBoxes(e.rows[..n], size) + [s]);
    ReadsOn([Column] + [BraceOpen], TokensRows(e.rows), g, size, h, r1);
    ReadsOn([Column] + [BraceOpen] + TokensRows(e.rows), [BraceClose], g, size, r1, r);
  }

  // All rows of a pile, from inside of the first one.
  lemma {:induction false} RowsReads(es: seq<Eqn>, p: seq<Shape>, inside: bool, size: int)
    returns (r: seq<Shape>, m: seq<Shape>)
    requires es != [] && WellFormedRows(es, inside) && p != [] && IsPile(Top(p).info) && Top(p).info.font == NoFont
             && (inside || Free(p))
    ensures
      var n := |es| - 1;
      && r != [] && Reads(TokensRows(es), Push(p, Plain(List, size)), size, r)
      && Ended(r, m, PutAll(Push(PutAll(p, RowBoxes(es[..n], size)), Plain(List, size)),
              BoxesOf(es[n].items, size)), true)
    decreases es, 0
  {
    hide Reads, Put, PutAll, Push, Up, Top, Retop, UpWhile, Host, Free, Ended, Leaves;
    var n, list := |es| - 1, Plain(List, size);
    var e, q := es[n], PutAll(p, RowBoxes(es[..n], size));
    var h := Push(q, list);
    RowOpens(p, RowBoxes(es[..n], size), inside, size);
    r, m := ItemsReads(e.items, h, inside, size);
    if n == 0 {
      PutOne(p, Shape(list, []));
    } else {
      var r0, m0 := RowsReads(es[..n], p, inside, size);
      var k := n - 1;
      assert es[..n][..k] == es[..k] && es[..n][k] == es[k];
      var ss := BoxesOf(es[k].items, size);
      var s := Shape(list.(args := |ss|), ss);
      NextReads(p, RowBoxes(es[..k], size), s, r0, m0, size);
      ReadsOn(TokensRows(es[..n]), [Next], Push(p, list), size, r0, h);
      ReadsOn(TokensRows(es[..n]) + [Next], TokensAll(e.items), Push(p, list), size, h, r);
    }
  }

  lemma RowOpens(p: seq<Shape>, ss: seq<Shape>, inside: bool, size: int)
    requires p != [] && (inside || Free(p))
    ensures
      var h := Push(PutAll(p, ss), Plain(List, size));
      Host(Top(h).info) && (inside || Free(h))
  {
  }

  lemma NextReads(p: seq<Shape>, ss: seq<Shape>, s: Shape, r: seq<Shape>, m: seq<Shape>, size: int)
    requires p != [] && IsPile(Top(p).info) && Top(p).info.font == NoFont && r != []
    requires s.info == Plain(List, size).(args := |s.kids|)
    requires Ended(r, m, PutAll(Push(PutAll(p, ss), Plain(List, size)), s.kids), true)
    ensures Reads([Next], r, size, Push(PutAll(p, ss + [s]), Plain(List, size)))
  {
    hide Reads, Put, Push, Up, Retop, Ended;
    var q, list := PutAll(p, ss), Plain(List, size);
    var h := PutAll(Push(q, list), s.kids);
    UpNested(q, list, s.kids);
    PutMore(p, ss, s);
    EndedUpTo(r, m, h, true, IsPile);
    ReadsOne(Next, r, size);
  }

  // Around the box with the items.
  lemma EndedUpTo(r: seq<Shape>, m: seq<Shape>, h: seq<Shape>, limits: bool, f: Info -> bool)
    requires Ended(r, m, h, limits) && forall i: Info :: i.kind == Subexpr ==> !f(i)
    ensures UpTo(r, f) == UpTo(h, f)
  {
    hide Up, Top, Trail;
    TrailTo(r, m, f);
  }

  lemma TrailRoot(m: seq<Shape>, h: seq<Shape>)
    requires |m| >= 2 && Rooted(Top(m).info) && Top(m).kids != [] && Up(m) == h
    ensures Trail(m, h, Rooted)
  {
    hide Rooted, Up, Top;
    assert Trail(h, h, Rooted);
  }

  // The box for a font or a size with a text in it.
  function Styled(style: Token, tok: Token, size: int): Shape
    requires IsText(tok)
  {
    var font: Font := match style case Style(f) => f case _ => NoFont;
    var outer: int := match style case Size(Some(n)) => n case _ => size;
    var inner: Font := if font == NoFont then FontFor(tok) else if tok.Func? then Roman else font;
    var text := Info(Some(tok.text), None, None, None, None, None, 0, size, Text, inner, NoPos);
    Shape(Info(None, None, None, None, None, Some(1), 1, outer, List, font, NoPos), [Shape(text, [])])
  }

  // A font applies to the next text, except for function names, and a size to
  // the box around it.
  lemma StyleReads(style: Token, tok: Token, g: seq<Shape>, h: seq<Shape>, size: int) returns (r: seq<Shape>)
    requires (style.Style? && style.font != NoFont) || (style.Size? && style.size.Some?)
    requires g != [] && UpWhile(g, Full) == h && Host(Top(h).info) && WellFormed(Atom(tok), false)
    ensures r != [] && Reads([style] + [tok], g, size, r) && UpWhile(r, Full) == UpWhile(r, Alone)
    ensures UpWhile(r, Full) == Put(h, Styled(style, tok, size))
  {
    hide Reads, Put, PutAll, Push, Up, Leaves, FontFor;
    var info := Nested(style, NEWBOX.(size := size));
    var p := Push(h, info);
    ReadsOne(style, g, size);
    TopPush(h, info);
    StyledLeaf(tok, info.font);
    WordedOne(p, Leaves(tok, info.font).value[0], size);
    var font := if info.font == NoFont then FontFor(tok) else if tok.Func? then Roman else info.font;
    var l := Lettering(Leaf(tok.text, font), size);
    r := Put(p, l);
    ReadsOne(tok, p, size);
    ReadsOn([style], [tok], g, size, p, r);
    PutOne(p, l);
    UpNested(h, info, [l]);
    var s := Shape(info.(args := 1), [l]);
    PutOne(h, s);
    assert Top(Put(h, s)).info == Top(h).info.(args := Top(h).info.args + 1);
  }

  lemma StyledLeaf(tok: Token, font: Font)
    requires WellFormed(Atom(tok), false)
    ensures Leaves(tok, font).Some? && |Leaves(tok, font).value| == 1
    ensures
      Leaves(tok, font).value[0]
      == Leaf(tok.text, if font == NoFont then FontFor(tok) else if tok.Func? then Roman else font)
  {
    hide FontFor, EqnWords.Pieces;
    OneLeaf(tok);
  }

  /*** items ***************************************************************************/

  lemma HostPut(h: seq<Shape>, ss: seq<Shape>, inside: bool)
    requires h != [] && Host(Top(h).info) && (inside || Free(h))
    ensures Host(Top(PutAll(h, ss)).info) && (inside || Free(PutAll(h, ss))) && Slot(Top(PutAll(h, ss)).info)
    ensures !Full(Top(PutAll(h, ss)).info) && !Alone(Top(PutAll(h, ss)).info)
  {
    if !inside {
      FreePut(h, ss);
    }
  }

  // All items inside of a box.
  lemma {:induction false} ItemsReads(es: seq<Eqn>, h: seq<Shape>, inside: bool, size: int)
    returns (r: seq<Shape>, m: seq<Shape>)
    requires WellFormedAll(es, inside) && h != [] && Host(Top(h).info) && (inside || Free(h))
    ensures r != [] && Ended(r, m, PutAll(h, BoxesOf(es, size)), true) && Reads(TokensAll(es), h, size, r)
    decreases es, 0
  {
    hide Put, PutAll, Up, Top, Retop, UpWhile, Host, Free, Trail, WellFormed;
    if es == [] {
      r, m := h, h;
      PutOne(h, Shape(NEWBOX, []));
      assert Trail(h, h, Rooted) by {
        TrailNone(h);
      }
    } else {
      hide Reads, Ended;
      var n := |es| - 1;
      var r0, m0 := ItemsReads(es[..n], h, inside, size);
      var h0 := PutAll(h, BoxesOf(es[..n], size));
      HostPut(h, BoxesOf(es[..n], size), inside);
      EndedFull(r0, m0, h0, true);
      if es[n].Split? {
        r, m := WordReads(es[n], r0, h0, inside, size);
        PutJoin(h, BoxesOf(es[..n], size), ItemBoxes(es[n], size));
      } else {
        r, m := ItemReads(es[n], r0, h0, inside, size);
        PutMore(h, BoxesOf(es[..n], size), BoxOf(es[n], size));
        assert BoxesOf(es, size) == BoxesOf(es[..n], size) + [BoxOf(es[n], size)];
      }
      ReadsOn(TokensAll(es[..n]), Tokens(es[n]), h, size, r0, r);
      EndedWeak(r, m, PutAll(h, BoxesOf(es, size)), HasLimits(es[n]));
    }
  }

  lemma PutJoin(h: seq<Shape>, a: seq<Shape>, b: seq<Shape>)
    requires h != []
    ensures PutAll(PutAll(h, a), b) == PutAll(h, a + b)
  {
    assert Top(h).kids + a + b == Top(h).kids + (a + b);
  }

  // A word that is split in a list.
  lemma WordReads(e: Eqn, g: seq<Shape>, h: seq<Shape>, inside: bool, size: int)
    returns (r: seq<Shape>, m: seq<Shape>)
    requires e.Split? && WellFormed(e, inside) && g != [] && UpWhile(g, Full) == h && Host(Top(h).info)
    ensures r != [] && Ended(r, m, PutAll(h, ItemBoxes(e, size)), HasLimits(e))
    ensures Reads(Tokens(e), g, size, r)
  {
    hide UpWhile, PutAll, Leaves, Reads, Lettering, Pieced, Up, Ended;
    var ls := Leaves(e.tok, NoFont).value;
    r, m := PutAll(h, Letters(ls, size)), PutAll(h, Letters(ls, size));
    RowPieces(h, ls, size);
    ReadsOne(e.tok, g, size);
    TrailNone(r);
    EndedArgument(r, m);
  }

  lemma {:induction false} RowPieces(h: seq<Shape>, ls: seq<Leaf>, size: int)
    requires h != [] && ls != [] && Host(Top(h).info)
    ensures Pieced(h, ls, size) == PutAll(h, Letters(ls, size))
    decreases |ls|
  {
    hide Put, PutAll, Group, Pieced, Top;
    var n := |ls| - 1;
    if n == 0 {
      WordedOne(h, ls[0], size);
      PutOne(h, Lettering(ls[0], size));
      assert ls == [ls[0]] && Letters(ls, size) == [Lettering(ls[0], size)];
    } else {
      RowPieces(h, ls[..n], size);
      assert ls == ls[..n] + [ls[n]];
      PiecedMore(h, ls[..n], ls[n], size);
      HostPut(h, Letters(ls[..n], size), true);
      PutMore(h, Letters(ls[..n], size), Lettering(ls[n], size));
      assert Letters(ls, size) == Letters(ls[..n], size) + [Lettering(ls[n], size)];
    }
  }

  lemma TrailNone(h: seq<Shape>)
    ensures Trail(h, h, Rooted)
  {
  }

  lemma EndedWeak(r: seq<Shape>, m: seq<Shape>, h: seq<Shape>, limits: bool)
    requires Ended(r, m, h, limits)
    ensures Ended(r, m, h, true)
  {
    hide Trail, Up, Top;
  }

  // An operand on its own.
  lemma EndedArgument(r: seq<Shape>, h: seq<Shape>)
    requires r != [] && h != [] && Trail(r, h, Rooted)
    ensures Ended(r, h, h, false)
  {
    hide Trail, Up, Top;
  }

  // An operator with its last operand.
  lemma EndedOperator(r: seq<Shape>, m: seq<Shape>, h: seq<Shape>, n: nat, pos: Pos, size: int, limits: bool)
    requires r != [] && |m| >= 2 && h != [] && Trail(r, m, Rooted) && Up(m) == h && n >= 2
    requires Top(m).info == Positioned(n, pos, size) && Top(m).kids != []
    requires limits || pos in {Sub, Sup, SubSup, Over}
    ensures Ended(r, m, h, limits)
  {
    hide Trail, Up, Top;
  }

  // The place for the first script or limit behind a base.
  lemma BasePlace(r: seq<Shape>, m: seq<Shape>, h: seq<Shape>, pos: Pos, size: int)
    requires Ended(r, m, h, false) && Host(Top(h).info) && Top(h).kids != []
    requires if pos in {From, To} then Free(h) else m == h
    ensures ScriptPlace(Supply(r, size), pos) == h
  {
    hide Supply, UpWhile, Trail, Up, Top, Free;
    EndedKids(r, m, h, false, size);
    EndedAlone(r, m, h, false);
    if pos in {From, To} && m == h {
      FreeNone(h);
    }
  }

  // The first script or limit, or the bar of a fraction.
  lemma OperatorOpens(h: seq<Shape>, b: Shape, pos: Pos, size: int)
    requires h != [] && Host(Top(h).info)
    ensures
      var s := Group(Put(h, b), Positioned(2, pos, size).(args := 1));
      && PutOperator(Put(h, b), pos, size) == s && Top(s).info == Positioned(2, pos, size).(args := 1)
      && Slot(Top(s).info) && UpWhile(s, Full) == s && OneRoom(Top(s).info)
  {
    PutOne(h, b);
  }

  lemma FirstReads(r: seq<Shape>, m: seq<Shape>, h: seq<Shape>, b: Shape, pos: Pos, size: int)
    requires h != [] && Ended(r, m, Put(h, b), false) && Host(Top(h).info) && pos in {Sub, Sup, From, To}
    requires if pos in {From, To} then Free(h) else m == Put(h, b)
    ensures r != [] && Reads([Script(pos)], r, size, Group(Put(h, b), Positioned(2, pos, size).(args := 1)))
    ensures pos in {From, To} ==> Free(Group(Put(h, b), Positioned(2, pos, size).(args := 1)))
  {
    hide Reads, Put, Top, Up, Group, Ended, Free, UpWhile, ScriptPlace, Supply;
    PutOne(h, b);
    HostPut(h, [b], pos !in {From, To});
    BasePlace(r, m, Put(h, b), pos, size);
    OperatorOpens(h, b, pos, size);
    assert r != [] by {
      EndedSome(r, m, Put(h, b));
    }
    ReadsOne(Script(pos), r, size);
    if pos in {From, To} {
      FreeGroup(Put(h, b), Positioned(2, pos, size).(args := 1));
    }
  }

  lemma EndedSome(r: seq<Shape>, m: seq<Shape>, h: seq<Shape>)
    requires Ended(r, m, h, false)
    ensures r != [] && m != []
  {
    hide Trail, Up, Top;
  }

  lemma BarReads(r: seq<Shape>, m: seq<Shape>, h: seq<Shape>, b: Shape, size: int, limits: bool)
    requires h != [] && r != [] && Ended(r, m, Put(h, b), limits) && Host(Top(h).info)
    ensures Reads([Fraction], r, size, Group(Put(h, b), Positioned(2, Over, size).(args := 1)))
  {
    hide Reads, Put, Top, Up, Group, Ended, Supply;
    PutOne(h, b);
    EndedKids(r, m, Put(h, b), limits, size);
    EndedFull(r, m, Put(h, b), limits);
    OperatorOpens(h, b, Over, size);
    ReadsOne(Fraction, r, size);
  }

  // The second script or limit behind the first operand.
  lemma HighReads(r: seq<Shape>, s: seq<Shape>, a: Shape, low: Pos, size: int)
    requires r != [] && s != [] && Trail(r, Put(s, a), Rooted) && (low == Sub || (low == From && Free(s)))
    requires Top(s).info == Positioned(2, low, size).(args := 1)
    ensures
      var now := Positioned(3, if low == Sub then SubSup else FromTo, size).(args := 2);
      var t := Fill(Put(s, a), now);
      && Reads([Script(High(low))], r, size, t) && Slot(Top(t).info) && UpWhile(t, Full) == t && OneRoom(Top(t).info)
      && (low == From ==> Free(t))
  {
    hide Reads, Put, Up, Free, Trail, Supply;
    var m := Put(s, a);
    PutOne(s, a);
    assert Supply(r, size) == r by {
      TrailKids(r, m, size);
    }
    TrailUp(r, m, Alone);
    if low == From {
      FreePut(s, [a]);
      FreeNone(m);
      FreeFill(m, Positioned(3, FromTo, size).(args := 2));
    }
    ReadsOne(Script(High(low)), r, size);
  }

  lemma TrailKids(r: seq<Shape>, m: seq<Shape>, size: int)
    requires r != [] && m != [] && Trail(r, m, Rooted) && Top(m).kids != []
    ensures Supply(r, size) == r
  {
    hide Up, Top;
  }

  // An operator with two operands, the first of which has been read.
  lemma {:induction false} SecondReads(e: Eqn, toks: seq<Token>, g: seq<Shape>, h: seq<Shape>, b: Shape, pos: Pos,
                                       arg: Eqn, inside: bool, size: int)
    returns (r: seq<Shape>)
    requires e.OneScript? || e.TwoScripts? || e.Quotient?
    requires arg < e && WellFormed(arg, inside) && Argument(arg) && g != [] && h != [] && Host(Top(h).info)
    requires
      var s := Group(Put(h, b), Positioned(2, pos, size).(args := 1));
      Reads(toks, g, size, s) && (inside || Free(s))
    ensures
      var s := Group(Put(h, b), Positioned(2, pos, size).(args := 1));
      && r != [] && Reads(toks + Tokens(arg), g, size, r) && Trail(r, Put(s, BoxOf(arg, size)), Rooted)
      && s != [] && Top(s).info == Positioned(2, pos, size).(args := 1)
    decreases e, 0
  {
    hide Reads, Put, Top, Up, Group, Free, UpWhile, Trail, Host;
    PutOne(h, b);
    var s := Group(Put(h, b), Positioned(2, pos, size).(args := 1));
    OperatorOpens(h, b, pos, size);
    r := ArgumentReads(arg, s, s, inside, size);
    ReadsOn(toks, Tokens(arg), g, size, s, r);
  }

  // An item inside of a box.
  lemma {:induction false} ItemReads(e: Eqn, g: seq<Shape>, h: seq<Shape>, inside: bool, size: int)
    returns (r: seq<Shape>, m: seq<Shape>)
    requires WellFormed(e, inside) && g != [] && UpWhile(g, Full) == h && Host(Top(h).info) && (inside || Free(h))
             && !e.Split?
    ensures r != [] && Ended(r, m, Put(h, BoxOf(e, size)), HasLimits(e)) && Reads(Tokens(e), g, size, r)
    decreases e, 2
  {
    hide Reads, Put, Top, Up, Group, Free, UpWhile, Trail, Host, Ended, Fill;
    if Single(e) {
      HostSlot(h);
      r := ArgumentReads(e, g, h, inside, size);
      m := Put(h, BoxOf(e, size));
      EndedArgument(r, m);
      return;
    }
    match e
    case OneScript(base, pos, arg) =>
      var r1 := BaseReads(e, base, pos, g, h, inside, size);
      r, m := OneReads(e, r1, g, h, inside, size);
    case TwoScripts(base, low, _, _) =>
      var r1 := BaseReads(e, base, low, g, h, inside, size);
      r, m := TwoReads(e, r1, g, h, inside, size);
    case Quotient(num, den) =>
      var r0, m0 := ItemReads(num, g, h, inside, size);
      var b := BoxOf(num, size);
      PutOne(h, b);
      BarReads(r0, m0, h, b, size, HasLimits(num));
      var s := Group(Put(h, b), Positioned(2, Over, size).(args := 1));
      ReadsOn(Tokens(num), [Fraction], g, size, r0, s);
      r := SecondReads(e, Tokens(num) + [Fraction], g, h, b, Over, den, true, size);
      m := TwoOperands(r, h, b, BoxOf(den, size), Over, size, false);
  }

  lemma HostSlot(h: seq<Shape>)
    requires h != [] && Host(Top(h).info)
    ensures Slot(Top(h).info)
  {
  }

  lemma TwoOperands(r: seq<Shape>, h: seq<Shape>, b: Shape, a: Shape, pos: Pos, size: int, limits: bool)
    returns (m: seq<Shape>)
    requires h != [] && r != [] && (limits || pos in {Sub, Sup, Over})
    requires Trail(r, Put(Group(Put(h, b), Positioned(2, pos, size).(args := 1)), a), Rooted)
    ensures Ended(r, m, Put(h, Shape(Positioned(2, pos, size), [b, a])), limits)
  {
    hide Put, Top, Up, Group, Trail, Ended, PutAll;
    PutOne(h, b);
    var info := Positioned(2, pos, size).(args := 1);
    var s := Group(Put(h, b), info);
    m := Put(s, a);
    PutOne(s, a);
    UpGrouped(h, b, info, [a]);
    assert [b] + [a] == [b, a];
    EndedOperator(r, m, Put(h, Shape(Positioned(2, pos, size), [b, a])), 2, pos, size, limits);
  }

  // The base of scripts or limits, with the first of them.
  lemma {:induction false} BaseReads(e: Eqn, base: Eqn, pos: Pos, g: seq<Shape>, h: seq<Shape>, inside: bool,
                                     size: int) returns (r: seq<Shape>)
    requires base < e && WellFormed(base, inside) && g != [] && UpWhile(g, Full) == h && Host(Top(h).info)
    requires pos in {Sub, Sup, From, To} && (inside || Free(h))
    requires if pos in {From, To} then !inside && !HasLimits(base) && !base.Split? else Single(base)
    ensures r != [] && r == Group(Put(h, BoxOf(base, size)), Positioned(2, pos, size).(args := 1))
    ensures Reads(Tokens(base) + [Script(pos)], g, size, r) && (pos in {From, To} ==> Free(r))
    decreases e, 0
  {
    hide Reads, Put, Top, Up, Group, Free, UpWhile, Trail, Host, Ended;
    var b, r0, m0 := BoxOf(base, size), g, g;
    if pos in {From, To} {
      r0, m0 := ItemReads(base, g, h, inside, size);
    } else {
      HostSlot(h);
      r0 := ArgumentReads(base, g, h, inside, size);
      m0 := Put(h, b);
      EndedArgument(r0, m0);
    }
    FirstReads(r0, m0, h, b, pos, size);
    PutOne(h, b);
    r := Group(Put(h, b), Positioned(2, pos, size).(args := 1));
    ReadsOn(Tokens(base), [Script(pos)], g, size, r0, r);
  }

  lemma {:induction false} OneReads(e: Eqn, s: seq<Shape>, g: seq<Shape>, h: seq<Shape>, inside: bool, size: int)
    returns (r: seq<Shape>, m: seq<Shape>)
    requires e.OneScript? && WellFormed(e, inside) && g != [] && h != [] && Host(Top(h).info)
    requires s == Group(Put(h, BoxOf(e.base, size)), Positioned(2, e.pos, size).(args := 1))
    requires Reads(Tokens(e.base) + [Script(e.pos)], g, size, s) && (e.pos in {From, To} ==> Free(s))
    ensures r != [] && Ended(r, m, Put(h, BoxOf(e, size)), HasLimits(e)) && Reads(Tokens(e), g, size, r)
    decreases e, 1
  {
    hide Reads, Put, Top, Up, Group, Free, UpWhile, Trail, Host, Ended;
    var b, toks := BoxOf(e.base, size), Tokens(e.base) + [Script(e.pos)];
    r := SecondReads(e, toks, g, h, b, e.pos, e.arg, e.pos in {Sub, Sup}, size);
    m := TwoOperands(r, h, b, BoxOf(e.arg, size), e.pos, size, HasLimits(e));
  }

  lemma {:induction false} TwoReads(e: Eqn, s: seq<Shape>, g: seq<Shape>, h: seq<Shape>, inside: bool, size: int)
    returns (r: seq<Shape>, m: seq<Shape>)
    requires e.TwoScripts? && WellFormed(e, inside) && g != [] && h != [] && Host(Top(h).info)
    requires s == Group(Put(h, BoxOf(e.base, size)), Positioned(2, e.low, size).(args := 1))
    requires Reads(Tokens(e.base) + [Script(e.low)], g, size, s) && (e.low == From ==> Free(s))
    ensures r != [] && Ended(r, m, Put(h, BoxOf(e, size)), HasLimits(e)) && Reads(Tokens(e), g, size, r)
    decreases e, 1
  {
    hide Reads, Put, Top, Up, Group, Free, UpWhile, Trail, Host, Ended, Fill;
    var low, b, toks := e.low, BoxOf(e.base, size), Tokens(e.base) + [Script(e.low)];
    var a, c, high := BoxOf(e.first, size), BoxOf(e.second, size), [Script(High(low))];
    var r1 := SecondReads(e, toks, g, h, b, low, e.first, low == Sub, size);
    HighReads(r1, s, a, low, size);
    var now := Positioned(3, if low == Sub then SubSup else FromTo, size).(args := 2);
    var t := Fill(Put(s, a), now);
    ReadsOn(toks + Tokens(e.first), high, g, size, r1, t);
    r := ArgumentReads(e.second, t, t, low == Sub, size);
    ReadsOn(toks + Tokens(e.first) + high, Tokens(e.second), g, size, t, r);
    UpFilled(h, b, Positioned(2, low, size).(args := 1), a, now, c);
    m := Put(t, c);
    EndedOperator(r, m, Put(h, BoxOf(e, size)), 3, now.pos, size, HasLimits(e));
  }

  /*** what the parser makes of them **************************************************/

  // The tree around a place.
  function Collapse(fs: seq<Shape>): Shape
    requires fs != []
    decreases |fs|
  {
    if |fs| >= 2 then Collapse(Up(fs)) else fs[0]
  }

  lemma {:induction false} CollapseFrames(e: Equation, p: Box)
    requires Good(e) && Place(e, p)
    ensures Collapse(FramesOf(e, p)) == View(e.tree, e.infos)
    decreases |Chain(e.tree, p)|
  {
    hide Good, OnSpine, Chain, Up, View;
    FrameInfo(e, p);
    if p == e.tree.box {
      assert FramesOf(e, p) == [View(e.tree, e.infos)];
    } else {
      var q := OneUp(e, p);
      CollapseFrames(e, q);
    }
  }

  lemma {:induction false} CollapseTrail(r: seq<Shape>, h: seq<Shape>)
    requires r != [] && h != [] && Trail(r, h, Rooted)
    ensures Collapse(r) == Collapse(h)
    decreases |r|
  {
    hide Up, Top, Rooted;
    if r != h {
      CollapseTrail(Up(r), h);
    }
  }

  lemma CollapseEnded(r: seq<Shape>, m: seq<Shape>, h: seq<Shape>, limits: bool)
    requires Ended(r, m, h, limits) && |h| == 1
    ensures Collapse(r) == h[0]
  {
    hide Up, Top, Trail;
    CollapseTrail(r, m);
  }

  // After so many tokens, the place of the parser is that on values.
  lemma {:induction false} Parsed(toks: seq<Token>, states: seq<State>, steps: seq<Step>, n: nat, gs: seq<Shape>)
    requires |states| == |steps| + 1 && Follow(toks, states, steps) && n <= |steps|
    requires OnSpine(states[0].e.tree, states[0].p)
    requires Reads(toks, FramesOf(states[0].e, states[0].p), states[0].size, gs)
    ensures OnSpine(states[n].e.tree, states[n].p) && states[n].size == states[0].size
    ensures Reads(toks[n..], FramesOf(states[n].e, states[n].p), states[n].size, gs)
    decreases n
  {
    hide OnSpine, FramesOf, Follows, Move, Scans;
    if n == 0 {
      assert toks[0..] == toks;
    } else {
      Parsed(toks, states, steps, n - 1, gs);
      ParsedNext(toks, n - 1, states[n - 1], steps[n - 1], states[n], gs);
    }
  }

  lemma ParsedNext(toks: seq<Token>, n: nat, a: State, step: Step, b: State, gs: seq<Shape>)
    requires n < |toks| && Follows(toks[n], a, step, b) && OnSpine(a.e.tree, a.p)
    requires Reads(toks[n..], FramesOf(a.e, a.p), a.size, gs)
    ensures OnSpine(b.e.tree, b.p) && b.size == a.size && Reads(toks[n + 1..], FramesOf(b.e, b.p), b.size, gs)
  {
    assert toks[n..][0] == toks[n] && toks[n..][1..] == toks[n + 1..];
    assert b.size == a.size && Readable(toks[n]) && Scans(toks[n], FramesOf(a.e, a.p)) by {
      hide OnSpine, FramesOf, Move, Scans, Effect, Good, Settled;
    }
    hide OnSpine, FramesOf, Move, Scans, Effect, Good, Settled, Follows;
    Moves(toks[n], a, step, b);
  }

  // The scanner does not fail in a token that is read.
  lemma NeverFails(tok: Token, toks: seq<Token>, a: State, q: Box, gs: seq<Shape>)
    requires toks != [] && toks[0] == tok && Good(a.e) && OnSpine(a.e.tree, a.p)
    requires Reads(toks, FramesOf(a.e, a.p), a.size, gs)
    ensures !Fails(tok, a.e, a.p, q)
  {
    hide Good, OnSpine, FramesOf, Move, Leaves, Chain;
    if Fails(tok, a.e, a.p, q) {
      PassedFrames(a.e, a.p, q, Full);
      FrameInfo(a.e, q);
    }
  }

  lemma {:induction false} AllReadable(toks: seq<Token>, fs: seq<Shape>, size: int, gs: seq<Shape>)
    requires fs != [] && Reads(toks, fs, size, gs)
    ensures forall i :: 0 <= i < |toks| ==> Readable(toks[i])
  {
    hide Readable, Scans, Move;
    if toks != [] {
      AllReadable(toks[1..], Move(toks[0], fs, size), size, gs);
      assert toks == [toks[0]] + toks[1..];
    }
  }

  lemma GoodAt(toks: seq<Token>, states: seq<State>, steps: seq<Step>, n: nat)
    requires |states| == |steps| + 1 && Follow(toks, states, steps) && n <= |steps| && Good(states[0].e)
    ensures Good(states[n].e)
  {
    hide Good, Effect, Settled;
    if n > 0 {
      assert Follows(toks[n - 1], states[n - 1], steps[n - 1], states[n]);
    }
  }

  const NOTHING: seq<Shape> := [Shape(NEWBOX, [])]

  // A new parser reads these tokens.
  method ReadTokens(toks: seq<Token>, size: int, ghost gs: seq<Shape>) returns (parser: Parser)
    requires Reads(toks, NOTHING, size, gs)
    ensures parser.Valid() && FramesOf(parser.eq, parser.parent) == gs
  {
    hide Reads, Follow, Fails, FramesOf, Good, Settled, OnSpine, Effect, Chain, Words, Holds, Parser.Valid;
    AllReadable(toks, NOTHING, size, gs);
    parser := new Parser(size);
    ghost var e, p := parser.eq, parser.parent;
    StartFrames(e, p);
    assert Good(e) by {
      ValidGood(parser);
    }
    var ok;
    ghost var states, steps, q;
    ok, states, steps, q := parser.Parse(toks);
    ghost var n := |steps|;
    Parsed(toks, states, steps, n, gs);
    GoodAt(toks, states, steps, n);
    if !ok {
      NeverFails(toks[n], toks[n..], states[n], q, gs);
      assert false;
    }
    assert toks[n..] == [];
    ReadsNone(FramesOf(parser.eq, parser.parent), size, gs);
  }

  lemma StartFrames(e: Equation, p: Box)
    requires e.tree == Node(p, []) && e.infos == map[p := NEWBOX]
    ensures OnSpine(e.tree, p) && FramesOf(e, p) == NOTHING
  {
  }

  lemma ReadsNone(fs: seq<Shape>, size: int, gs: seq<Shape>)
    requires fs != [] && Reads([], fs, size, gs)
    ensures gs == fs
  {
  }

  lemma ValidGood(parser: Parser)
    requires parser.Valid()
    ensures Good(parser.eq) && Place(parser.eq, parser.parent)
  {
  }

  // Whatever equation it is, the parser builds the tree of it.
  method ReadEquation(es: seq<Eqn>, size: int) returns (parser: Parser)
    requires WellFormedAll(es, false)
    ensures parser.Valid()
    ensures View(parser.eq.tree, parser.eq.infos) == Shape(NEWBOX.(args := |BoxesOf(es, size)|), BoxesOf(es, size))
  {
    hide Reads, FramesOf, View, Ended, Parser.Valid, PutAll;
    ghost var r, m := ItemsReads(es, NOTHING, false, size);
    parser := ReadTokens(TokensAll(es), size, r);
    ValidGood(parser);
    CollapseFrames(parser.eq, parser.parent);
    WholeEquation(es, size);
    CollapseEnded(r, m, PutAll(NOTHING, BoxesOf(es, size)), true);
  }

  lemma WholeEquation(es: seq<Eqn>, size: int)
    requires WellFormedAll(es, false)
    ensures PutAll(NOTHING, BoxesOf(es, size)) == [Shape(NEWBOX.(args := |BoxesOf(es, size)|), BoxesOf(es, size))]
  {
    assert [] + BoxesOf(es, size) == BoxesOf(es, size);
  }

  /*** limits inside of scripts *******************************************************/

  lemma UpInfos(fs: seq<Shape>)
    requires |fs| >= 2
    ensures forall i :: 0 <= i < |Up(fs)| ==> Up(fs)[i].info == fs[i].info
  {
  }

  lemma {:induction false} WhileInfos(fs: seq<Shape>, f: Info -> bool)
    requires fs != []
    ensures UpWhile(fs, f)[0].info == fs[0].info
    decreases |fs|
  {
    hide Up;
    if |fs| >= 2 && f(Top(fs).info) {
      UpInfos(fs);
      WhileInfos(Up(fs), f);
    }
  }

  lemma {:induction false} NotFree(fs: seq<Shape>)
    requires fs != [] && !Free(fs) && !InPosition(fs[0].info)
    ensures UpTo(fs, InPosition).Some? && 2 <= |UpTo(fs, InPosition).value| <= |fs|
    decreases |fs|
  {
    hide Up, InPosition;
    if !InPosition(Top(fs).info) {
      assert |fs| >= 2;
      UpInfos(fs);
      var i :| 0 <= i < |fs| && InPosition(fs[i].info);
      assert InPosition(Up(fs)[i].info);
      NotFree(Up(fs));
    }
  }

  // A limit belongs to the operand right in front of it if and only if no box
  // around the place has a position.
  lemma LimitStays(fs: seq<Shape>, pos: Pos)
    requires fs != [] && !InPosition(fs[0].info) && pos in {From, To}
    ensures ScriptPlace(fs, pos) == UpWhile(fs, Alone) <==> Free(UpWhile(fs, Alone))
  {
    hide Up, InPosition, Free, UpWhile, UpTo;
    var g := UpWhile(fs, Alone);
    WhileInfos(fs, Alone);
    if Free(g) {
      FreeNone(g);
    } else {
      NotFree(g);
    }
  }

  // For all operands: what is written as y sub { x from a } is read as if it
  // was y sub { x } from a, and the closing brace has no effect.
  function Written(y: Eqn, pos: Pos, x: Eqn, a: Eqn): Eqn {
    OneScript(y, pos, Enclosed(None, [OneScript(x, From, a)]))
  }

  function Misread(y: Eqn, pos: Pos, x: Eqn, a: Eqn): Eqn {
    OneScript(OneScript(y, pos, Enclosed(None, [x])), From, a)
  }

  predicate Parts(y: Eqn, pos: Pos, x: Eqn, a: Eqn) {
    && pos in {Sub, Sup} && Single(y) && Single(x) && Argument(a)
    && WellFormed(y, false) && WellFormed(x, true) && WellFormed(a, false)
  }

  lemma OneItem(x: Eqn, size: int)
    ensures WellFormedAll([x], true) == WellFormed(x, true) && TokensAll([x]) == Tokens(x)
    ensures WellFormed(x, true) && !x.Split? ==> BoxesOf([x], size) == [BoxOf(x, size)]
  {
    assert [x][..0] == [];
    assert [] + Tokens(x) == Tokens(x);
    assert WellFormedAll([], true);
  }

  // Both scripts belong to the same base, wherever the braces are.
  lemma LimitPlace(r: seq<Shape>, h: seq<Shape>, y: Shape, x: Shape, pos: Pos, list: Info, size: int)
    requires h != [] && Host(Top(h).info) && pos in {Sub, Sup} && Host(list) && list.args == 0 && r != []
    requires
      var s := Group(Put(h, y), Positioned(2, pos, size).(args := 1));
      Trail(r, Put(Push(s, list), x), Rooted)
    ensures
      var z := Shape(Positioned(2, pos, size), [y, Shape(list.(args := 1), [x])]);
      ScriptPlace(Supply(r, size), From) == Put(h, z)
  {
    hide Supply, Trail, Up, Top, Put, Push, Group, PutAll;
    PutOne(h, y);
    var info := Positioned(2, pos, size).(args := 1);
    var s := Group(Put(h, y), info);
    var m := Put(Push(s, list), x);
    PutOne(Push(s, list), x);
    UpNested(s, list, [x]);
    UpGrouped(h, y, info, [Shape(list.(args := 1), [x])]);
    PutOne(s, Shape(list.(args := 1), [x]));
    assert [y] + [Shape(list.(args := 1), [x])] == [y, Shape(list.(args := 1), [x])];
    TrailKids(r, m, size);
    TrailUp(r, m, Alone);
    var w := Shape(list.(args := 1), [x]);
    assert |m| >= 2 && Top(m).info == w.info && Up(m) == Put(s, w);
    assert |Put(s, w)| >= 2 && Top(Put(s, w)).info == Positioned(2, pos, size);
    assert Up(Put(s, w)) == Put(h, Shape(Positioned(2, pos, size), [y, w]));
    assert UpTo(Put(s, w), InPosition) == Some(Put(s, w));
    assert UpTo(m, InPosition) == Some(Put(s, w));
  }

  lemma HostStays(h: seq<Shape>)
    requires h != [] && Host(Top(h).info)
    ensures UpWhile(h, Full) == h && Slot(Top(h).info)
  {
  }

  // Up to the operand in braces.
  lemma InBraces(y: Eqn, pos: Pos, x: Eqn, a: Eqn, size: int) returns (r: seq<Shape>)
    requires Parts(y, pos, x, a)
    ensures r != [] && Reads(Tokens(y) + [Script(pos)] + [BraceOpen] + Tokens(x), NOTHING, size, r)
    ensures
      var s := Group(Put(NOTHING, BoxOf(y, size)), Positioned(2, pos, size).(args := 1));
      Trail(r, Put(Push(s, Plain(List, size)), BoxOf(x, size)), Rooted)
  {
    hide Reads, Put, Top, Up, Group, Push, Free, UpWhile, Trail, Host, Retop, Tokens, BoxOf, WellFormed;
    var h, list, e := NOTHING, Plain(List, size), Enclosed(None, [x]);
    NothingFree(size);
    var s := BaseReads(OneScript(y, pos, x), y, pos, h, h, false, size);
    PutOne(h, BoxOf(y, size));
    OperatorOpens(h, BoxOf(y, size), pos, size);
    OpeningReads(e, s, s, true, size);
    var l := Push(s, list);
    HostStays(l);
    r := ArgumentReads(x, l, l, true, size);
    ReadsOn(Tokens(y) + [Script(pos)], [BraceOpen], h, size, s, l);
    ReadsOn(Tokens(y) + [Script(pos)] + [BraceOpen], Tokens(x), h, size, l, r);
  }

  lemma WrittenTokens(y: Eqn, pos: Pos, x: Eqn, a: Eqn)
    ensures Tokens(Written(y, pos, x, a))
         == Tokens(y) + [Script(pos)] + [BraceOpen] + Tokens(x) + [Script(From)] + Tokens(a) + [BraceClose]
  {
    hide WellFormed, Leaves;
    var i := OneScript(x, From, a);
    var e := Enclosed(None, [i]);
    OneItem(i, 0);
    assert Tokens(e) == [BraceOpen] + (Tokens(x) + [Script(From)] + Tokens(a)) + [BraceClose];
    assert Tokens(OneScript(y, pos, e)) == Tokens(y) + [Script(pos)] + Tokens(e);
    hide Tokens;
    Regroup(Tokens(y) + [Script(pos)], [BraceOpen], Tokens(x), [Script(From)], Tokens(a), [BraceClose]);
  }

  lemma Regroup<T>(a: seq<T>, b: seq<T>, c: seq<T>, d: seq<T>, e: seq<T>, f: seq<T>)
    ensures a + (b + (c + d + e) + f) == a + b + c + d + e + f
  {
  }

  // A limit behind z, and the brace that is not open any more.
  lemma BehindLimit(toks: seq<Token>, r0: seq<Shape>, z: Shape, a: Eqn, size: int)
    returns (r: seq<Shape>, m: seq<Shape>)
    requires r0 != [] && Reads(toks, NOTHING, size, r0) && ScriptPlace(Supply(r0, size), From) == Put(NOTHING, z)
    requires Argument(a) && WellFormed(a, false)
    ensures r != [] && Reads(toks + [Script(From)] + Tokens(a) + [BraceClose], NOTHING, size, r)
    ensures Ended(r, m, Put(NOTHING, Shape(Positioned(2, From, size), [z, BoxOf(a, size)])), true)
  {
    hide Reads, Put, Top, Up, Group, Push, Free, UpWhile, Trail, Host, Ended, ScriptPlace, Supply, Retop, Tokens, BoxOf;
    hide WellFormed;
    var h := NOTHING;
    NothingFree(size);
    FromReads(r0, h, z, size);
    PutOne(h, z);
    OperatorOpens(h, z, From, size);
    var t := Group(Put(h, z), Positioned(2, From, size).(args := 1));
    r := ArgumentReads(a, t, t, false, size);
    m := TwoOperands(r, h, z, BoxOf(a, size), From, size, true);
    StrayReads(r, h, z, BoxOf(a, size), size);
    ReadsOn(toks, [Script(From)], h, size, r0, t);
    ReadsOn(toks + [Script(From)], Tokens(a), h, size, t, r);
    ReadsOn(toks + [Script(From)] + Tokens(a), [BraceClose], h, size, r, r);
  }

  lemma LimitReads(y: Eqn, pos: Pos, x: Eqn, a: Eqn, size: int) returns (r: seq<Shape>, m: seq<Shape>)
    requires Parts(y, pos, x, a)
    ensures WellFormed(Misread(y, pos, x, a), false)
    ensures Reads(Tokens(Written(y, pos, x, a)), NOTHING, size, r)
    ensures Ended(r, m, Put(NOTHING, BoxOf(Misread(y, pos, x, a), size)), true)
  {
    hide Reads, Put, Top, Up, Group, Push, Free, UpWhile, Trail, Host, Ended, ScriptPlace, Supply, Retop, Tokens, BoxOf;
    hide WellFormed, Leaves;
    var list, yb, xb := Plain(List, size), BoxOf(y, size), BoxOf(x, size);
    NothingFree(size);
    MisreadParts(y, pos, x, a, size);
    var r0 := InBraces(y, pos, x, a, size);
    LimitPlace(r0, NOTHING, yb, xb, pos, list, size);
    var z := Shape(Positioned(2, pos, size), [yb, Shape(list.(args := 1), [xb])]);
    r, m := BehindLimit(Tokens(y) + [Script(pos)] + [BraceOpen] + Tokens(x), r0, z, a, size);
    WrittenTokens(y, pos, x, a);
  }

  lemma FromReads(r: seq<Shape>, h: seq<Shape>, z: Shape, size: int)
    requires r != [] && h != [] && Host(Top(h).info) && Free(h) && ScriptPlace(Supply(r, size), From) == Put(h, z)
    ensures
      var t := Group(Put(h, z), Positioned(2, From, size).(args := 1));
      Reads([Script(From)], r, size, t) && Free(t)
  {
    hide Reads, Put, Top, Group, Free, ScriptPlace, Supply;
    PutOne(h, z);
    HostPut(h, [z], false);
    OperatorOpens(h, z, From, size);
    FreeGroup(Put(h, z), Positioned(2, From, size).(args := 1));
    ReadsOne(Script(From), r, size);
  }

  // The brace is not open any more.
  lemma StrayReads(r: seq<Shape>, h: seq<Shape>, z: Shape, a: Shape, size: int)
    requires r != [] && |h| == 1 && Top(h).info.kind == Text
    requires Trail(r, Put(Group(Put(h, z), Positioned(2, From, size).(args := 1)), a), Rooted)
    ensures Reads([BraceClose], r, size, r)
  {
    hide Reads, Trail, Put, Top, Group, PutAll, Up;
    PutOne(h, z);
    var s := Group(Put(h, z), Positioned(2, From, size).(args := 1));
    var m := Put(s, a);
    PutOne(s, a);
    UpGrouped(h, z, Positioned(2, From, size).(args := 1), [a]);
    TrailTo(r, m, IsBrace);
    assert UpTo(Up(m), IsBrace) == None;
    ReadsOne(BraceClose, r, size);
  }

  lemma NothingFree(size: int)
    ensures Host(Top(NOTHING).info) && Free(NOTHING) && UpWhile(NOTHING, Full) == NOTHING
    ensures Top(NOTHING).info.kind == Text && Host(Plain(List, size))
  {
  }

  lemma MisreadParts(y: Eqn, pos: Pos, x: Eqn, a: Eqn, size: int)
    requires Parts(y, pos, x, a)
    ensures WellFormed(Misread(y, pos, x, a), false)
    ensures
      var list := Shape(Plain(List, size).(args := 1), [BoxOf(x, size)]);
      var z := Shape(Positioned(2, pos, size), [BoxOf(y, size), list]);
      BoxOf(Misread(y, pos, x, a), size) == Shape(Positioned(2, From, size), [z, BoxOf(a, size)])
  {
    hide Leaves, Tokens;
    OneItem(x, size);
    var e := Enclosed(None, [x]);
    assert WellFormed(e, true) && !HasLimits(e);
    var i := OneScript(y, pos, e);
    assert WellFormed(i, false) && !HasLimits(i);
    assert WellFormed(OneScript(i, From, a), false);
    assert BoxOf(e, size) == Shape(Plain(List, size).(args := 1), [BoxOf(x, size)]);
  }

  // The parser makes the same tree of both, although the first one is meant to
  // be another equation.
  method ReadMisread(y: Eqn, pos: Pos, x: Eqn, a: Eqn, size: int) returns (parser: Parser)
    requires Parts(y, pos, x, a)
    ensures parser.Valid() && WellFormed(Misread(y, pos, x, a), false)
    ensures View(parser.eq.tree, parser.eq.infos) == Shape(NEWBOX.(args := 1), [BoxOf(Misread(y, pos, x, a), size)])
  {
    hide Reads, FramesOf, View, Ended, Parser.Valid, Put, Tokens, WellFormed, BoxOf;
    ghost var r, m := LimitReads(y, pos, x, a, size);
    parser := ReadTokens(Tokens(Written(y, pos, x, a)), size, r);
    ValidGood(parser);
    CollapseFrames(parser.eq, parser.parent);
    var s := BoxOf(Misread(y, pos, x, a), size);
    assert Put(NOTHING, s) == [Shape(NEWBOX.(args := 1), [s])] by {
      PutNothing(s);
    }
    CollapseEnded(r, m, Put(NOTHING, s), true);
  }

  lemma PutNothing(s: Shape)
    ensures Put(NOTHING, s) == [Shape(NEWBOX.(args := 1), [s])]
  {
    var none: seq<Shape> := [];
    assert Top(NOTHING) == Shape(NEWBOX, none) && none + [s] == [s] && NOTHING[..0] + [s] == [s];
    assert Top(NOTHING).info.(args := 0 + 1) == NEWBOX.(args := 1);
  }
}
