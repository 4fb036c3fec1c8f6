// eqn_parse() in userland/mandoc/eqn.c on values: what each token does to the
// boxes from the root to the place where the parser is.
module EqnMachine {
  import opened Options
  import opened EqnTree
  import opened EqnState
  import opened EqnShape
  import opened EqnParse

  // Leave boxes with the property f.
  function UpWhile(fs: seq<Shape>, f: Info -> bool): (r: seq<Shape>)
    requires fs != []
    ensures r != []
    decreases |fs|
  {
    if |fs| >= 2 && f(Top(fs).info) then UpWhile(Up(fs), f) else fs
  }

  // The innermost box with the property f as the place.
  function UpTo(fs: seq<Shape>, f: Info -> bool): (r: Option<seq<Shape>>)
    requires fs != []
    ensures r.Some? ==> r.value != []
    decreases |fs|
  {
    if f(Top(fs).info) then Some(fs) else if |fs| >= 2 then UpTo(Up(fs), f) else None
  }

  // The operand in front: an empty text if there is none.
  function Supply(fs: seq<Shape>, size: int): (r: seq<Shape>)
    requires fs != []
    ensures r != [] && Top(r).kids != []
  {
    if Top(fs).kids == [] then Put(fs, Lettering(Leaf("", Top(fs).info.font), size)) else fs
  }

  // One level up, below the root.
  function Out(fs: seq<Shape>): (r: seq<Shape>)
    requires fs != []
    ensures r != []
  {
    if |fs| >= 2 then Up(fs) else fs
  }

  // Where a script belongs.
  function ScriptPlace(fs: seq<Shape>, pos: Pos): (r: seq<Shape>)
    requires fs != []
    ensures r != []
  {
    var g := UpWhile(fs, Alone);
    if pos == From || pos == To then
      match UpTo(g, InPosition)
      case Some(x) => Out(x)
      case None => g
    else g
  }

  function PutScript(fs: seq<Shape>, pos: Pos, size: int): (r: seq<Shape>)
    requires fs != []
    ensures r != []
  {
    var i := Top(fs).info;
    if pos == Sup && i.pos == Sub then Fill(fs, i.(expectargs := Some(3), pos := SubSup))
    else if pos == To && i.pos == From then Fill(fs, i.(expectargs := Some(3), pos := FromTo))
    else PutOperator(fs, pos, size)
  }

  function PutOperator(fs: seq<Shape>, pos: Pos, size: int): (r: seq<Shape>)
    requires fs != []
    ensures r != []
  {
    if Top(fs).kids == [] then fs else Group(fs, Operator(Top(fs).info.font, size, pos))
  }

  function PutAccent(fs: seq<Shape>, a: Accent, size: int): (r: seq<Shape>)
    requires fs != [] && Top(fs).kids != []
    ensures r != []
  {
    Up(Group(fs, Accented(a, size)))
  }

  // Behind a box that is closed.
  function Behind(fs: seq<Shape>, brace: bool): (r: seq<Shape>)
    requires fs != []
    ensures r != []
  {
    var g := Out(fs);
    UpWhile(if brace && Top(g).info.kind in {Pile, Matrix} then Out(g) else g, SingleList)
  }

  function PutRight(fs: seq<Shape>, fence: Option<string>): (r: seq<Shape>)
    requires fs != []
    ensures r != []
  {
    match UpTo(fs, IsFence)
    case None => fs
    case Some(g) =>
      if fence.None? then g
      else Behind(Fill(g, Top(g).info.(right := Some(RightFence(fence.value)))), false)
  }

  function PutNested(fs: seq<Shape>, tok: Token, size: int): (r: seq<Shape>)
    requires fs != []
    ensures r != []
  {
    var g := UpWhile(fs, Full);
    Push(g, Nested(tok, NEWBOX.(font := Top(g).info.font, size := size)))
  }

  function PutWord(fs: seq<Shape>, tok: Token, size: int): (r: seq<Shape>)
    requires fs != [] && IsText(tok) && '\0' !in tok.text
    ensures r != []
  {
    var g := UpWhile(fs, Full);
    var ls := Leaves(tok, Top(g).info.font);
    if ls.Some? && ls.value != [] then Worded(g, ls.value, size) else g
  }

  // What one token does.
  function Move(tok: Token, fs: seq<Shape>, size: int): (r: seq<Shape>)
    requires fs != [] && Readable(tok)
    ensures r != []
  {
    if IsText(tok) then PutWord(fs, tok, size)
    else if Nests(tok) then PutNested(fs, tok, size)
    else
      match tok
      case Diacritic(a) => PutAccent(Supply(fs, size), a, size)
      case Script(pos) => PutScript(ScriptPlace(Supply(fs, size), pos), pos, size)
      case Fraction => PutOperator(UpWhile(UpWhile(Supply(fs, size), Full), IsSubexpr), Over, size)
      case Left(_) => UpWhile(fs, Full)
      case Right(fence) => PutRight(fs, fence)
      case BraceClose => (match UpTo(fs, IsBrace) case None => fs case Some(g) => Behind(g, true))
      case Next =>
        (match UpTo(fs, IsPile)
         case None => fs
         case Some(g) => Push(g, NEWBOX.(font := Top(g).info.font, size := size, kind := List)))
      case _ => fs
  }

  // The escape scanner does not fail in a text.
  predicate Scans(tok: Token, fs: seq<Shape>)
    requires fs != [] && Readable(tok)
  {
    IsText(tok) ==> Leaves(tok, Top(UpWhile(fs, Full)).info.font).Some?
  }

  /*** moves of the parser *******************************************************/

  lemma LastOfChain(e: Equation, p: Box)
    requires OnSpine(e.tree, p)
    ensures |Chain(e.tree, p)| > 0 && Chain(e.tree, p)[|Chain(e.tree, p)| - 1] == p
  {
  }

  // The box above.
  lemma OneUp(e: Equation, p: Box) returns (q: Box)
    requires Good(e) && Place(e, p) && p != e.tree.box
    ensures Place(e, q) && |Chain(e.tree, p)| >= 2 && q == Chain(e.tree, p)[|Chain(e.tree, p)| - 2] == e.links[p].parent
    ensures Chain(e.tree, q) == Chain(e.tree, p)[..|Chain(e.tree, p)| - 1]
    ensures |FramesOf(e, p)| >= 2 && FramesOf(e, q) == Up(FramesOf(e, p))
  {
    hide OnSpine, Chain, Frames, Proper, Boxes, Inside, Linked, Shapes, Texts, Counted, Limits, Rooted, Up;
    StepPlace(e, p);
    q := e.links[p].parent;
    UpFrames(e.tree, p, e.infos);
    LastOfChain(e, q);
  }

  lemma FrameInfo(e: Equation, p: Box)
    requires Good(e) && Place(e, p)
    ensures Top(FramesOf(e, p)).info == e.infos[p]
    ensures |FramesOf(e, p)| == |Chain(e.tree, p)| && (|FramesOf(e, p)| == 1 <==> p == e.tree.box)
  {
    hide Good, Frames, KidsAt, ViewAll, View;
    FramesTop(e, p);
  }

  // Two boxes on the spine.
  lemma SameBox(e: Equation, p: Box, q: Box)
    requires OnSpine(e.tree, p) && OnSpine(e.tree, q) && Chain(e.tree, q) <= Chain(e.tree, p)
    ensures |Chain(e.tree, q)| == |Chain(e.tree, p)| <==> q == p
    ensures q != p ==> Chain(e.tree, q) <= Chain(e.tree, p)[..|Chain(e.tree, p)| - 1] && p != e.tree.box
  {
    LastOfChain(e, p);
    LastOfChain(e, q);
    if p == e.tree.box {
      TopOf(e, p);
    }
  }

  lemma {:induction false} PassedFrames(e: Equation, p: Box, q: Box, f: Info -> bool)
    requires Good(e) && Place(e, p) && Passed(e, Chain(e.tree, p), q, f)
    ensures UpWhile(FramesOf(e, p), f) == FramesOf(e, q)
    decreases |Chain(e.tree, p)|
  {
    hide Good, OnSpine, Chain, Frames, FramesOf, Up;
    SameBox(e, p, q);
    FrameInfo(e, p);
    LastOfChain(e, p);
    if q != p {
      var r := OneUp(e, p);
      PassedFrames(e, r, q, f);
    }
  }

  lemma {:induction false} InnermostFrames(e: Equation, p: Box, q: Box, f: Info -> bool)
    requires Good(e) && Place(e, p) && Innermost(e, Chain(e.tree, p), q, f)
    ensures UpTo(FramesOf(e, p), f) == Some(FramesOf(e, q))
    decreases |Chain(e.tree, p)|
  {
    hide Good, OnSpine, Chain, Frames, FramesOf, Up;
    SameBox(e, p, q);
    FrameInfo(e, p);
    LastOfChain(e, p);
    if q != p {
      var r := OneUp(e, p);
      InnermostFrames(e, r, q, f);
    }
  }

  lemma {:induction false} NoFrames(e: Equation, p: Box, f: Info -> bool)
    requires Good(e) && Place(e, p) && NoneOf(e, Chain(e.tree, p), f)
    ensures UpTo(FramesOf(e, p), f) == None
    decreases |Chain(e.tree, p)|
  {
    hide Good, OnSpine, Chain, Frames, FramesOf, Up;
    FrameInfo(e, p);
    LastOfChain(e, p);
    if p != e.tree.box {
      var r := OneUp(e, p);
      NoFrames(e, r, f);
    }
  }

  lemma TextMoves(e: Equation, p: Box, q: Box, tok: Token, size: int, f: Equation)
    requires Good(e) && Place(e, p) && IsText(tok) && '\0' !in tok.text && Passed(e, Chain(e.tree, p), q, Full)
    requires Leaves(tok, e.infos[q].font).Some? && Leaves(tok, e.infos[q].font).value != [] && OnSpine(f.tree, q)
    requires FramesOf(f, q) == Worded(FramesOf(e, q), Leaves(tok, e.infos[q].font).value, size)
    ensures FramesOf(f, q) == PutWord(FramesOf(e, p), tok, size)
  {
    hide Good, OnSpine, Chain, Frames, FramesOf, Up, UpWhile, Put, Leaves, Worded;
    PassedFrames(e, p, q, Full);
    FrameInfo(e, q);
  }

  lemma NestMoves(e: Equation, p: Box, q: Box, tok: Token, size: int, f: Equation, b: Box)
    requires Good(e) && Place(e, p) && Nests(tok) && Passed(e, Chain(e.tree, p), q, Full) && b !in e.links
    requires f == Appended(e, q, b, Nested(tok, NEWBOX.(font := e.infos[q].font, size := size)))
    ensures OnSpine(f.tree, b) && FramesOf(f, b) == PutNested(FramesOf(e, p), tok, size)
  {
    hide Good, OnSpine, Chain, Frames, FramesOf, Up, UpWhile, Push, Appended, HasRoom, Fits, Nested;
    PassedFrames(e, p, q, Full);
    FrameInfo(e, q);
    NotFull(e, q);
    NestedFits(tok);
    AppendedFrames(e, q, b, Nested(tok, NEWBOX.(font := e.infos[q].font, size := size)));
  }

  lemma SupplyMoves(e: Equation, p: Box, size: int, mid: Equation)
    requires Good(e) && Settled(e) && Supplied(e, p, size, mid)
    ensures Good(mid) && Place(mid, p) && FramesOf(mid, p) == Supply(FramesOf(e, p), size)
  {
    hide Good, OnSpine, Chain, Frames, FramesOf, Up, Put, Labelled, Appended, HasRoom, Settled, SettledBut, Words, Top;
    FramesTop(e, p);
    if e.below[p] == [] {
      KeysOf(e);
      EmptyRoom(e, p);
      SettledWeak(e, p);
      var x :| x in mid.links && Lettered(e, p, size, "", e.infos[p].font, mid, x);
      var info := NEWBOX.(font := e.infos[p].font, size := size);
      NewLeaf(e, p, x, info, "");
      LabelledFrames(e, p, x, info, info.(text := Some("")));
    }
  }

  lemma OperatorMoves(e: Equation, q: Box, pos: Pos, size: int, f: Equation, b: Box)
    requires Good(e) && Place(e, q) && Operand(e, q) && b !in e.links
    requires f == Grouped(e, q, b, Operator(e.infos[q].font, size, pos))
    ensures OnSpine(f.tree, b) && FramesOf(f, b) == PutOperator(FramesOf(e, q), pos, size)
  {
    hide Good, OnSpine, Chain, Frames, FramesOf, Group, Grouped, Fits, Operand, Top;
    FrameInfo(e, q);
    OperatorFits(e.infos[q].font, size, pos);
    GroupedFrames(e, q, b, Operator(e.infos[q].font, size, pos));
  }

  lemma LeftMoves(e: Equation, s: Box, q: Box)
    requires Good(e) && LeftPosition(e, s, q)
    ensures
      FramesOf(e, q) == match UpTo(FramesOf(e, s), InPosition)
        case Some(x) => Out(x)
        case None => FramesOf(e, s)
  {
    hide Good, OnSpine, Chain, Frames, FramesOf, Up, Innermost, NoneOf;
    if NoneOf(e, Chain(e.tree, s), InPosition) {
      NoFrames(e, s, InPosition);
    } else {
      var c :| c in e.links && Innermost(e, Chain(e.tree, s), c, InPosition) && e.links[c].parent == q;
      InnermostFrames(e, s, c, InPosition);
      InnermostPlace(e, s, c);
      var r := OneUp(e, c);
    }
  }

  lemma InnermostPlace(e: Equation, s: Box, c: Box)
    requires Good(e) && OnSpine(e.tree, s) && Innermost(e, Chain(e.tree, s), c, InPosition)
    ensures Place(e, c) && c != e.tree.box
  {
    hide Good, OnSpine, Chain;
    RootInfo(e);
  }

  lemma ScriptMoves(e: Equation, p: Box, tok: Pos, size: int, mid: Equation, s: Box, q: Box, f: Equation, b: Box)
    requires Good(e) && Settled(e) && Supplied(e, p, size, mid) && Passed(mid, Chain(mid.tree, p), s, Alone)
    requires if tok in {From, To} then LeftPosition(mid, s, q) else q == s
    requires Scripted(mid, q, tok, size, f, b)
    ensures
      && OnSpine(f.tree, b)
      && FramesOf(f, b) == PutScript(ScriptPlace(Supply(FramesOf(e, p), size), tok), tok, size)
  {
    hide Good, OnSpine, Chain, Frames, FramesOf, UpWhile, UpTo, Supply, Supplied, Settled, LeftPosition, PutOperator;
    hide Grouped, Passed, Operand;
    SupplyMoves(e, p, size, mid);
    PassedFrames(mid, p, s, Alone);
    if tok in {From, To} {
      LeftMoves(mid, s, q);
    }
    FrameInfo(mid, q);
    var info := mid.infos[q];
    if tok == Sup && info.pos == Sub {
      FilledFrames(mid, q, info.(expectargs := Some(3), pos := SubSup));
    } else if tok == To && info.pos == From {
      FilledFrames(mid, q, info.(expectargs := Some(3), pos := FromTo));
    } else {
      OperatorMoves(mid, q, tok, size, f, b);
    }
  }

  lemma FractionMoves(e: Equation, p: Box, size: int, mid: Equation, s: Box, q: Box, f: Equation, b: Box)
    requires Good(e) && Settled(e) && Supplied(e, p, size, mid) && Passed(mid, Chain(mid.tree, p), s, Full)
    requires Passed(mid, Chain(mid.tree, s), q, IsSubexpr) && Operand(mid, q) && b !in mid.links
    requires f == Grouped(mid, q, b, Operator(mid.infos[q].font, size, Over))
    ensures OnSpine(f.tree, b)
    ensures FramesOf(f, b) == PutOperator(UpWhile(UpWhile(Supply(FramesOf(e, p), size), Full), IsSubexpr), Over, size)
  {
    hide Good, OnSpine, Chain, Frames, FramesOf, UpWhile, Supply, Supplied, Settled, PutOperator, Grouped, Operand;
    SupplyMoves(e, p, size, mid);
    PassedFrames(mid, p, s, Full);
    PassedFrames(mid, s, q, IsSubexpr);
    OperatorMoves(mid, q, Over, size, f, b);
  }

  lemma AccentMoves(e: Equation, p: Box, a: Accent, size: int, mid: Equation, b: Box, f: Equation)
    requires Good(e) && Settled(e) && Supplied(e, p, size, mid) && b !in mid.links && Operand(mid, p)
    requires f == Grouped(mid, p, b, Accented(a, size)) && Good(f)
    ensures OnSpine(f.tree, p) && FramesOf(f, p) == PutAccent(Supply(FramesOf(e, p), size), a, size)
  {
    hide Good, OnSpine, Chain, Frames, FramesOf, Supply, Supplied, Settled, Grouped, Operand, Up, Group, Top, Fits;
    SupplyMoves(e, p, size, mid);
    KeysOf(mid);
    AccentedFits(a, size);
    GroupedFrames(mid, p, b, Accented(a, size));
    GroupedInner(mid, p, b, Accented(a, size));
    FrameInfo(f, b);
    assert b != f.tree.box by {
      RootInfo(f);
    }
    var r := OneUp(f, b);
  }

  lemma ClosedMoves(e: Equation, cur: Box, brace: bool, now: Box)
    requires Good(e) && ClosedAt(e, cur, brace, now)
    ensures FramesOf(e, now) == Behind(FramesOf(e, cur), brace)
  {
    hide Good, OnSpine, Chain, Frames, FramesOf, Up, UpWhile;
    var was := Chain(e.tree, cur);
    assert cur != e.tree.box by {
      if cur == e.tree.box {
        TopOf(e, cur);
      }
    }
    var up := OneUp(e, cur);
    FrameInfo(e, up);
    FrameInfo(e, cur);
    if brace && e.infos[up].kind in {Pile, Matrix} {
      assert up != e.tree.box by {
        if up == e.tree.box {
          TopOf(e, up);
        }
      }
      var out := OneUp(e, up);
      assert Chain(e.tree, out) == was[..|was| - 2];
      PassedFrames(e, out, now, SingleList);
    } else {
      assert Chain(e.tree, up) == was[..|was| - 1];
      PassedFrames(e, up, now, SingleList);
    }
  }

  lemma ClosingMoves(e: Equation, p: Box, brace: bool, fence: Option<string>, q: Box?, f: Equation, b: Box)
    requires Good(e) && Place(e, p) && Closing(e, p, brace, fence, q, f, b) && Good(f) && (brace ==> fence == None)
    ensures OnSpine(f.tree, b)
    ensures FramesOf(f, b) ==
            if !brace then PutRight(FramesOf(e, p), fence)
            else match UpTo(FramesOf(e, p), IsBrace) case None => FramesOf(e, p) case Some(g) => Behind(g, true)
  {
    hide Good, OnSpine, Chain, Frames, FramesOf, Up, UpTo, Behind, Fill, Top, Filled;
    if q == null {
      NoFrames(e, p, Closer(brace));
    } else {
      InnermostFrames(e, p, q, Closer(brace));
      if brace {
        ClosedMoves(f, q, brace, b);
      } else if fence.Some? {
        FrameInfo(e, q);
        FilledFrames(e, q, e.infos[q].(right := Some(RightFence(fence.value))));
        ClosedMoves(f, q, brace, b);
      }
    }
  }

  lemma NextMoves(e: Equation, p: Box, size: int, q: Box?, f: Equation, b: Box)
    requires Good(e) && Place(e, p)
    requires q == null ==> NoneOf(e, Chain(e.tree, p), IsPile) && f == e && b == p
    requires q != null ==> Innermost(e, Chain(e.tree, p), q, IsPile) && b !in e.links
    requires q != null ==> f == Appended(e, q, b, NEWBOX.(font := e.infos[q].font, size := size, kind := List))
    ensures OnSpine(f.tree, b)
    ensures
      FramesOf(f, b) == match UpTo(FramesOf(e, p), IsPile)
        case None => FramesOf(e, p)
        case Some(g) => Push(g, NEWBOX.(font := Top(g).info.font, size := size, kind := List))
  {
    hide Good, OnSpine, Chain, Frames, FramesOf, UpTo, Push, Top, Appended;
    if q == null {
      NoFrames(e, p, IsPile);
    } else {
      InnermostFrames(e, p, q, IsPile);
      FrameInfo(e, q);
      AppendedFrames(e, q, b, NEWBOX.(font := e.infos[q].font, size := size, kind := List));
    }
  }

  // The parser does what the token does on values.
  lemma Moves(tok: Token, a: State, step: Step, b: State)
    requires Follows(tok, a, step, b) && OnSpine(a.e.tree, a.p)
    ensures Scans(tok, FramesOf(a.e, a.p)) && OnSpine(b.e.tree, b.p)
    ensures FramesOf(b.e, b.p) == Move(tok, FramesOf(a.e, a.p), a.size)
  {
    hide Good, Settled, OnSpine, Chain, Frames, FramesOf, Words, Supplied, Innermost, NoneOf, Closing, Scripted;
    hide LeftPosition, Grouped, Appended, Operand, Lettered, PutWord, Worded, PutNested, PutScript, ScriptPlace, Supply;
    hide PutOperator, PutAccent, PutRight, Behind, UpTo, UpWhile, Push, Nested, Leaves, Operator, Accented, Top;
    var e, p, mid, s, q, f := a.e, a.p, step.mid, step.s, step.q, b.e;
    if IsText(tok) {
      PassedFrames(e, p, q, Full);
      FrameInfo(e, q);
      TextMoves(e, p, q, tok, a.size, f);
    } else if Nests(tok) {
      NestMoves(e, p, q, tok, a.size, f, b.p);
    } else {
      match tok
      case Diacritic(c) => AccentMoves(e, p, c, a.size, mid, q, f);
      case Script(pos) => ScriptMoves(e, p, pos, a.size, mid, s, q, f, b.p);
      case Fraction => FractionMoves(e, p, a.size, mid, s, q, f, b.p);
      case Left(_) => PassedFrames(e, p, b.p, Full);
      case Right(fence) => ClosingMoves(e, p, false, fence, q, f, b.p);
      case BraceClose => ClosingMoves(e, p, true, None, q, f, b.p);
      case Next => NextMoves(e, p, a.size, q, f, b.p);
      case _ =>
    }
  }
}
