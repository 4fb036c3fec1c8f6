// Search expressions: the recursive descent parser of
// userland/mandoc/mansearch.c.
module SearchExpr {
  import opened Bytes
  import opened DbmQuery
  import opened Options

  // The arguments with a meaning of their own, and all the others.
  datatype Token = LParen | RParen | OrSign | AndSign | ICase | Word(w: Str)

  // A term selects pages by the columns with these numbers and a condition.
  datatype Term = Term(keys: set<nat>, matching: Match)

  // Compiling an argument to a term, ignoring case or not; that fails when
  // the argument is not a valid regular expression.
  type Compiler = (Token, bool) -> Option<Term>

  datatype Tree = Leaf(t: Term) | Or(kids: seq<Tree>) | And(kids: seq<Tree>)

  // Does the expression select page p, when found gives the pages of a term?
  predicate Selects(e: Tree, p: int, found: Term -> set<int>) {
    match e
    case Leaf(t) => p in found(t)
    case Or(ks) => exists i :: 0 <= i < |ks| && Selects(ks[i], p, found)
    case And(ks) => forall i :: 0 <= i < |ks| ==> Selects(ks[i], p, found)
  }

  /*** what the parser does *************************************************/

  type Result = Option<Tree>

  function DropNones(gs: seq<Result>): (r: seq<Result>)
    ensures r == [] || r[0].Some?
    ensures |r| <= |gs|
  {
    if gs == [] || gs[0].Some? then gs else DropNones(gs[1..])
  }

  // The results up to the first one that is missing.
  function Run(gs: seq<Result>): (r: seq<Tree>)
    ensures |r| <= |gs|
  {
    if gs == [] || gs[0].None? then [] else [gs[0].value] + Run(gs[1..])
  }

  // All results that are not missing.
  function Somes(gs: seq<Result>): (r: seq<Tree>)
    ensures |r| <= |gs|
  {
    if gs == [] then [] else (if gs[0].Some? then [gs[0].value] else []) + Somes(gs[1..])
  }

  // What exprcomp() makes from the results of expr_and(): a missing result
  // behind the first one cuts the list of children.
  function OrTree(gs: seq<Result>): Result {
    var d := DropNones(gs);
    if d == [] then None else if |d| == 1 then d[0] else Some(Or(Run(d)))
  }

  // What expr_and() makes from the results of exprterm().
  function AndTree(gs: seq<Result>): Result {
    var d := DropNones(gs);
    if d == [] then None else if |d| == 1 then d[0] else Some(And(Somes(d)))
  }

  // exprcomp() from token i on: the results of expr_and(), and where it ends.
  function Groups(ts: seq<Token>, c: Compiler, i: nat, nested: bool): (r: (seq<Result>, nat))
    requires i <= |ts|
    ensures i <= r.1 <= |ts| && (r.1 < |ts| ==> nested && ts[r.1].RParen?)
    decreases |ts| - i, 3
  {
    if i == |ts| then ([], i)
    else if ts[i].RParen? then
      if nested then ([], i) else Groups(ts, c, i + 1, nested)
    else if ts[i].OrSign? then Groups(ts, c, i + 1, nested)
    else
      var g := AndAt(ts, c, i);
      var rest := Groups(ts, c, g.1, nested);
      ([g.0] + rest.0, rest.1)
  }

  predicate EndsAnd(ts: seq<Token>, i: nat) {
    i >= |ts| || ts[i].RParen? || ts[i].OrSign?
  }

  // expr_and() at token i, and where it ends.
  function AndAt(ts: seq<Token>, c: Compiler, i: nat): (r: (Result, nat))
    requires i <= |ts|
    ensures i <= r.1 <= |ts| && (!EndsAnd(ts, i) ==> i < r.1)
    decreases |ts| - i, 2
  {
    var xs := Terms(ts, c, i, true, false);
    (AndTree(xs.0), xs.1)
  }

  // The results of exprterm() from token i on; need tells whether a term has
  // to come next, have whether there has been one already.
  function Terms(ts: seq<Token>, c: Compiler, i: nat, need: bool, have: bool): (r: (seq<Result>, nat))
    requires i <= |ts|
    ensures i <= r.1 <= |ts| && (!EndsAnd(ts, i) && need ==> i < r.1)
    decreases |ts| - i, 1
  {
    if EndsAnd(ts, i) then ([], i)
    else if ts[i].AndSign? then Terms(ts, c, i + 1, true, have)
    else if !need then ([], i)
    else
      var x := TermAt(ts, c, i);
      var have' := have || x.0.Some?;
      var rest := Terms(ts, c, x.1, !have', have');
      ([x.0] + rest.0, rest.1)
  }

  // exprterm() at token i, and where it ends.
  function TermAt(ts: seq<Token>, c: Compiler, i: nat): (r: (Result, nat))
    requires i < |ts|
    ensures i < r.1 <= |ts|
    decreases |ts| - i, 0
  {
    if ts[i].LParen? then
      var gs := Groups(ts, c, i + 1, true);
      (OrTree(gs.0), if gs.1 < |ts| then gs.1 + 1 else gs.1)
    else if ts[i].ICase? && i + 1 < |ts| then (Compiled(c, ts[i + 1], true), i + 2)
    else (Compiled(c, ts[i], false), i + 1)
  }

  function Compiled(c: Compiler, t: Token, icase: bool): Result {
    var r := c(t, icase);
    if r.Some? then Some(Leaf(r.value)) else None
  }

  // The expression that all arguments together make.
  function Parse(ts: seq<Token>, c: Compiler): Result {
    OrTree(Groups(ts, c, 0, false).0)
  }

  // At the top level, the parser always consumes all arguments.
  lemma ConsumesAll(ts: seq<Token>, c: Compiler)
    ensures Groups(ts, c, 0, false).1 == |ts|
  {
  }

  /*** which terms are lost *************************************************/

  // No result is missing between two others.
  ghost predicate NoGap(gs: seq<Result>) {
    forall a, b, d :: 0 <= a < b < d < |gs| && gs[a].Some? && gs[d].Some? ==> gs[b].Some?
  }

  lemma {:induction false} DropKeeps(gs: seq<Result>)
    ensures Somes(DropNones(gs)) == Somes(gs) && (NoGap(DropNones(gs)) <==> NoGap(gs))
  {
    if gs != [] && gs[0].None? {
      DropKeeps(gs[1..]);
      if NoGap(gs[1..]) {
        forall a, b, d | 0 <= a < b < d < |gs| && gs[a].Some? && gs[d].Some?
          ensures gs[b].Some?
        {
          assert gs[1..][a - 1] == gs[a] && gs[1..][b - 1] == gs[b] && gs[1..][d - 1] == gs[d];
        }
      } else {
        var a, b, d :| 0 <= a < b < d < |gs[1..]| && gs[1..][a].Some? && gs[1..][d].Some? && gs[1..][b].None?;
        assert gs[a + 1].Some? && gs[d + 1].Some? && gs[b + 1].None?;
      }
    }
  }

  lemma {:induction false} SomesNone(gs: seq<Result>)
    ensures Somes(gs) == [] <==> forall i :: 0 <= i < |gs| ==> gs[i].None?
  {
    if gs != [] {
      SomesNone(gs[1..]);
    }
  }

  lemma {:induction false} RunKeeps(gs: seq<Result>, i: nat)
    requires i <= |gs| && forall j :: 0 <= j < i ==> gs[j].Some?
    requires i < |gs| ==> gs[i].None?
    ensures Run(gs) == Somes(gs) <==> forall j :: i < j < |gs| ==> gs[j].None?
  {
    if i == 0 {
      SomesNone(gs);
    } else {
      var tail := gs[1..];
      RunKeeps(tail, i - 1);
      assert Run(gs)[1..] == Run(tail) && Somes(gs)[1..] == Somes(tail);
      assert forall j :: i < j < |gs| ==> gs[j] == tail[j - 1];
      assert forall j :: i - 1 < j < |tail| ==> tail[j] == gs[j + 1];
    }
  }

  // The source links all operands of an OR into the tree if and only if no
  // operand between two others comes out empty.
  lemma NothingLost(gs: seq<Result>)
    ensures Run(DropNones(gs)) == Somes(gs) <==> NoGap(gs)
  {
    DropKeeps(gs);
    var d := DropNones(gs);
    var i := 0;
    while i < |d| && d[i].Some?
      invariant 0 <= i <= |d| && forall j :: 0 <= j < i ==> d[j].Some?
    {
      i := i + 1;
    }
    RunKeeps(d, i);
    if exists j :: i < j < |d| && d[j].Some? {
      var j :| i < j < |d| && d[j].Some?;
      assert !(d[0].Some? && d[j].Some? ==> d[i].Some?);
      assert !NoGap(d);
    } else {
      assert forall j :: i < j < |d| ==> d[j].None?;
      assert NoGap(d);
    }
  }

  // For example, the last term of "x -o -a -o y" is lost.
  lemma TermLost(c: Compiler, x: Str, y: Str, tx: Term, ty: Term)
    requires c(Word(x), false) == Some(tx) && c(Word(y), false) == Some(ty)
    ensures Parse([Word(x), OrSign, AndSign, OrSign, Word(y)], c) == Some(Or([Leaf(tx)]))
  {
    var ts := [Word(x), OrSign, AndSign, OrSign, Word(y)];
    assert TermAt(ts, c, 4) == (Some(Leaf(ty)), 5) && Terms(ts, c, 5, false, true) == ([], 5);
    assert Terms(ts, c, 4, true, false).0 == [Some(Leaf(ty))] && Terms(ts, c, 4, true, false).1 == 5;
    assert Groups(ts, c, 5, false) == ([], 5) && AndAt(ts, c, 4) == (Some(Leaf(ty)), 5);
    assert Groups(ts, c, 4, false).0 == [Some(Leaf(ty))] && Groups(ts, c, 4, false).1 == 5;
    assert Groups(ts, c, 3, false).0 == [Some(Leaf(ty))] && Groups(ts, c, 3, false).1 == 5;
    assert Terms(ts, c, 3, true, false) == ([], 3);
    assert Terms(ts, c, 2, true, false) == ([], 3);
    assert AndAt(ts, c, 2) == (None, 3);
    assert Groups(ts, c, 2, false).0 == [None, Some(Leaf(ty))] && Groups(ts, c, 2, false).1 == 5;
    assert Groups(ts, c, 1, false).0 == [None, Some(Leaf(ty))] && Groups(ts, c, 1, false).1 == 5;
    assert TermAt(ts, c, 0) == (Some(Leaf(tx)), 1) && Terms(ts, c, 1, false, true) == ([], 1);
    assert Terms(ts, c, 0, true, false).0 == [Some(Leaf(tx))] && Terms(ts, c, 0, true, false).1 == 1;
    assert AndAt(ts, c, 0) == (Some(Leaf(tx)), 1);
    var gs := [Some(Leaf(tx)), None, Some(Leaf(ty))];
    assert Groups(ts, c, 0, false).0 == gs && Groups(ts, c, 0, false).1 == 5;
    assert Run(gs) == [Leaf(tx)] by {
      assert gs[1..][0] == None;
    }
  }

  /*** the whole expression *******************************************************/

  // Like OrTree(), but no operand is lost.
  function AllOf(gs: seq<Result>): Result {
    var d := DropNones(gs);
    if d == [] then None else if |d| == 1 then d[0] else Some(Or(Somes(d)))
  }

  // What the parser would make of the arguments if no OR at any depth lost
  // an operand.
  function WholeGroups(ts: seq<Token>, c: Compiler, i: nat, nested: bool): seq<Result>
    requires i <= |ts|
    decreases |ts| - i, 3
  {
    if i == |ts| then []
    else if ts[i].RParen? then
      if nested then [] else WholeGroups(ts, c, i + 1, nested)
    else if ts[i].OrSign? then WholeGroups(ts, c, i + 1, nested)
    else [AndTree(WholeTerms(ts, c, i, true, false))] + WholeGroups(ts, c, AndAt(ts, c, i).1, nested)
  }

  function WholeTerms(ts: seq<Token>, c: Compiler, i: nat, need: bool, have: bool): seq<Result>
    requires i <= |ts|
    decreases |ts| - i, 1
  {
    if EndsAnd(ts, i) then []
    else if ts[i].AndSign? then WholeTerms(ts, c, i + 1, true, have)
    else if !need then []
    else
      var x := TermAt(ts, c, i);
      var have' := have || x.0.Some?;
      [WholeTerm(ts, c, i)] + WholeTerms(ts, c, x.1, !have', have')
  }

  function WholeTerm(ts: seq<Token>, c: Compiler, i: nat): Result
    requires i < |ts|
    decreases |ts| - i, 0
  {
    if ts[i].LParen? then AllOf(WholeGroups(ts, c, i + 1, true)) else TermAt(ts, c, i).0
  }

  // No OR in parentheses has a gap.
  ghost predicate GaplessGroups(ts: seq<Token>, c: Compiler, i: nat, nested: bool)
    requires i <= |ts|
    decreases |ts| - i, 3
  {
    if i == |ts| then true
    else if ts[i].RParen? then nested || GaplessGroups(ts, c, i + 1, nested)
    else if ts[i].OrSign? then GaplessGroups(ts, c, i + 1, nested)
    else GaplessTerms(ts, c, i, true, false) && GaplessGroups(ts, c, AndAt(ts, c, i).1, nested)
  }

  ghost predicate GaplessTerms(ts: seq<Token>, c: Compiler, i: nat, need: bool, have: bool)
    requires i <= |ts|
    decreases |ts| - i, 1
  {
    if EndsAnd(ts, i) then true
    else if ts[i].AndSign? then GaplessTerms(ts, c, i + 1, true, have)
    else if !need then true
    else
      var x := TermAt(ts, c, i);
      var have' := have || x.0.Some?;
      GaplessTerm(ts, c, i) && GaplessTerms(ts, c, x.1, !have', have')
  }

  ghost predicate GaplessTerm(ts: seq<Token>, c: Compiler, i: nat)
    requires i < |ts|
    decreases |ts| - i, 0
  {
    ts[i].LParen? ==> NoGap(Groups(ts, c, i + 1, true).0) && GaplessGroups(ts, c, i + 1, true)
  }

  // The same results are missing.
  ghost predicate Alike(gs: seq<Result>, hs: seq<Result>) {
    |gs| == |hs| && forall k :: 0 <= k < |gs| ==> (gs[k].Some? <==> hs[k].Some?)
  }

  lemma {:induction false} DropAlike(gs: seq<Result>, hs: seq<Result>)
    requires Alike(gs, hs)
    ensures Alike(DropNones(gs), DropNones(hs)) && (DropNones(gs) == DropNones(hs) <==> gs == hs)
  {
    if gs != [] && gs[0].None? {
      DropAlike(gs[1..], hs[1..]);
      assert gs == [None] + gs[1..] && hs == [None] + hs[1..];
    }
  }

  lemma {:induction false} SomesAlike(gs: seq<Result>, hs: seq<Result>)
    requires Alike(gs, hs)
    ensures |Somes(gs)| == |Somes(hs)| && (Somes(gs) == Somes(hs) <==> gs == hs)
  {
    if gs != [] {
      SomesAlike(gs[1..], hs[1..]);
      assert gs == [gs[0]] + gs[1..] && hs == [hs[0]] + hs[1..];
      if gs[0].Some? {
        assert Somes(gs)[0] == gs[0].value && Somes(gs)[1..] == Somes(gs[1..]);
        assert Somes(hs)[0] == hs[0].value && Somes(hs)[1..] == Somes(hs[1..]);
      } else {
        assert Somes(gs) == Somes(gs[1..]) && Somes(hs) == Somes(hs[1..]);
      }
    }
  }

  lemma AndAlike(gs: seq<Result>, hs: seq<Result>)
    requires Alike(gs, hs)
    ensures AndTree(gs).Some? <==> AndTree(hs).Some?
    ensures AndTree(gs) == AndTree(hs) <==> gs == hs
  {
    hide Somes;
    DropAlike(gs, hs);
    SomesAlike(DropNones(gs), DropNones(hs));
  }

  lemma OrAlike(gs: seq<Result>, hs: seq<Result>)
    requires Alike(gs, hs)
    ensures OrTree(gs).Some? <==> AllOf(hs).Some?
    ensures OrTree(gs) == AllOf(hs) <==> NoGap(gs) && gs == hs
  {
    var d, e := DropNones(gs), DropNones(hs);
    DropAlike(gs, hs);
    DropKeeps(gs);
    NothingLost(gs);
    SomesAlike(d, e);
    var ls := RunPrefix(d);
    if |d| > 1 && Run(d) == Somes(e) {
      assert ls == [];
    }
    hide Somes, Run;
  }

  // Both readings agree exactly where there are no gaps.
  lemma {:induction false} GroupsAlike(ts: seq<Token>, c: Compiler, i: nat, nested: bool)
    requires i <= |ts|
    ensures
      var gs, hs := Groups(ts, c, i, nested).0, WholeGroups(ts, c, i, nested);
      Alike(gs, hs) && (gs == hs <==> GaplessGroups(ts, c, i, nested))
    decreases |ts| - i, 3
  {
    hide AndTree, Terms, WholeTerms, GaplessTerms;
    if i < |ts| {
      if ts[i].RParen? {
        if !nested {
          GroupsAlike(ts, c, i + 1, nested);
        }
      } else if ts[i].OrSign? {
        GroupsAlike(ts, c, i + 1, nested);
      } else {
        var xs, ys := Terms(ts, c, i, true, false).0, WholeTerms(ts, c, i, true, false);
        TermsAlike(ts, c, i, true, false);
        AndAlike(xs, ys);
        var n := AndAt(ts, c, i).1;
        GroupsAlike(ts, c, n, nested);
        ConsAlike(AndTree(xs), AndTree(ys), Groups(ts, c, n, nested).0, WholeGroups(ts, c, n, nested));
      }
    }
  }

  lemma {:induction false} TermsAlike(ts: seq<Token>, c: Compiler, i: nat, need: bool, have: bool)
    requires i <= |ts|
    ensures
      var gs, hs := Terms(ts, c, i, need, have).0, WholeTerms(ts, c, i, need, have);
      Alike(gs, hs) && (gs == hs <==> GaplessTerms(ts, c, i, need, have))
    decreases |ts| - i, 1
  {
    hide TermAt, WholeTerm, GaplessTerm;
    if !EndsAnd(ts, i) {
      if ts[i].AndSign? {
        TermsAlike(ts, c, i + 1, true, have);
      } else if need {
        var x := TermAt(ts, c, i);
        var have' := have || x.0.Some?;
        TermAlike(ts, c, i);
        TermsAlike(ts, c, x.1, !have', have');
        ConsAlike(x.0, WholeTerm(ts, c, i), Terms(ts, c, x.1, !have', have').0, WholeTerms(ts, c, x.1, !have', have'));
      }
    }
  }

  lemma {:induction false} TermAlike(ts: seq<Token>, c: Compiler, i: nat)
    requires i < |ts|
    ensures TermAt(ts, c, i).0.Some? <==> WholeTerm(ts, c, i).Some?
    ensures TermAt(ts, c, i).0 == WholeTerm(ts, c, i) <==> GaplessTerm(ts, c, i)
    decreases |ts| - i, 0
  {
    hide Groups, WholeGroups, GaplessGroups, OrTree, AllOf;
    if ts[i].LParen? {
      GroupsAlike(ts, c, i + 1, true);
      OrAlike(Groups(ts, c, i + 1, true).0, WholeGroups(ts, c, i + 1, true));
    }
  }

  lemma ConsAlike(g: Result, h: Result, gs: seq<Result>, hs: seq<Result>)
    requires (g.Some? <==> h.Some?) && Alike(gs, hs)
    ensures Alike([g] + gs, [h] + hs) && ([g] + gs == [h] + hs <==> g == h && gs == hs)
  {
    assert ([g] + gs)[1..] == gs && ([h] + hs)[1..] == hs;
    assert ([g] + gs)[0] == g && ([h] + hs)[0] == h;
  }

  // The parser makes the whole expression exactly if no OR at any depth has a
  // gap.
  lemma WholeExpression(ts: seq<Token>, c: Compiler)
    ensures Parse(ts, c) == AllOf(WholeGroups(ts, c, 0, false)) <==>
              NoGap(Groups(ts, c, 0, false).0) && GaplessGroups(ts, c, 0, false)
  {
    hide Groups, WholeGroups, GaplessGroups, OrTree, AllOf;
    GroupsAlike(ts, c, 0, false);
    OrAlike(Groups(ts, c, 0, false).0, WholeGroups(ts, c, 0, false));
  }

  /*** parsing what was printed **********************************************/

  // A Boolean combination of terms.  A term may ignore case, and then any
  // argument may be meant literally; OR may be written or not.
  datatype Query = Plain(t: Token, icase: bool) | Either(a: Query, b: Query, sign: bool) | Both(a: Query, b: Query)

  // Every term is valid.
  predicate Compiles(q: Query, c: Compiler) {
    match q
    case Plain(t, icase) => (icase || t.Word?) && c(t, icase).Some?
    case Either(a, b, _) => Compiles(a, c) && Compiles(b, c)
    case Both(a, b) => Compiles(a, c) && Compiles(b, c)
  }

  // Which pages it is meant to select.
  predicate Wants(q: Query, p: int, c: Compiler, found: Term -> set<int>)
    requires Compiles(q, c)
  {
    match q
    case Plain(t, icase) => p in found(c(t, icase).value)
    case Either(a, b, _) => Wants(a, p, c, found) || Wants(b, p, c, found)
    case Both(a, b) => Wants(a, p, c, found) && Wants(b, p, c, found)
  }

  // The arguments that express it, with parentheses only around an OR that
  // is an operand of an AND.
  function PrintOr(q: Query): seq<Token>
    decreases q, 0
  {
    match q
    case Either(a, b, sign) => PrintOr(a) + (if sign then [OrSign] else []) + PrintOr(b)
    case Both(a, b) => PrintAnd(a) + [AndSign] + PrintAnd(b)
    case Plain(t, icase) => PrintTerm(t, icase)
  }

  function PrintTerm(t: Token, icase: bool): seq<Token> {
    if icase then [ICase, t] else [t]
  }

  function PrintAnd(q: Query): seq<Token>
    decreases q, 1
  {
    match q
    case Both(a, b) => PrintAnd(a) + [AndSign] + PrintAnd(b)
    case Plain(t, icase) => PrintTerm(t, icase)
    case Either(_, _, _) => [LParen] + PrintOr(q) + [RParen]
  }

  // The operands of the topmost ORs and of the topmost ANDs.
  function OrParts(q: Query, c: Compiler): (r: seq<Tree>)
    requires Compiles(q, c)
    ensures |r| > 0
    decreases q, 1
  {
    match q
    case Either(a, b, _) => OrParts(a, c) + OrParts(b, c)
    case Both(a, b) => [And(AndParts(a, c) + AndParts(b, c))]
    case Plain(t, icase) => [Leaf(c(t, icase).value)]
  }

  function AndParts(q: Query, c: Compiler): (r: seq<Tree>)
    requires Compiles(q, c)
    ensures |r| > 0
    decreases q, 2
  {
    match q
    case Both(a, b) => AndParts(a, c) + AndParts(b, c)
    case Plain(t, icase) => [Leaf(c(t, icase).value)]
    case Either(a, b, _) => [Or(OrParts(a, c) + OrParts(b, c))]
  }

  function Present(ks: seq<Tree>): (r: seq<Result>)
    ensures |r| == |ks| && forall i :: 0 <= i < |ks| ==> r[i] == Some(ks[i])
  {
    seq(|ks|, i requires 0 <= i < |ks| => Some(ks[i]))
  }

  lemma {:induction false} PresentAll(ks: seq<Tree>)
    ensures Run(Present(ks)) == ks == Somes(Present(ks)) && DropNones(Present(ks)) == Present(ks)
  {
    if ks != [] {
      PresentAll(ks[1..]);
      assert Present(ks)[1..] == Present(ks[1..]);
    }
  }

  // These tokens are found at position i.
  ghost predicate TokensAt(ts: seq<Token>, i: nat, s: seq<Token>) {
    i + |s| <= |ts| && ts[i..i + |s|] == s
  }

  lemma TokensSplit(ts: seq<Token>, i: nat, a: seq<Token>, t: Token, b: seq<Token>)
    requires TokensAt(ts, i, a + [t] + b)
    ensures TokensAt(ts, i, a) && i + |a| < |ts| && ts[i + |a|] == t && TokensAt(ts, i + |a| + 1, b)
  {
    var s := a + [t] + b;
    assert ts[i..i + |a|] == s[..|a|] == a;
    assert ts[i + |a|] == s[|a|];
    assert ts[i + |a| + 1..i + |s|] == s[|a| + 1..] == b;
  }

  lemma TokensJoined(ts: seq<Token>, i: nat, a: seq<Token>, b: seq<Token>)
    requires TokensAt(ts, i, a + [] + b) && b != []
    ensures TokensAt(ts, i, a) && TokensAt(ts, i + |a|, b) && i + |a| < |ts| && ts[i + |a|] == b[0]
  {
    var s := a + [] + b;
    assert ts[i..i + |a|] == s[..|a|] == a;
    assert ts[i + |a|..i + |s|] == s[|a|..] == b;
    assert ts[i + |a|] == s[|a|];
  }

  lemma OneToken(ts: seq<Token>, i: nat, t: Token)
    requires TokensAt(ts, i, [t])
    ensures i < |ts| && ts[i] == t
  {
    assert ts[i..i + 1][0] == t;
  }

  // From position i to n, these terms are read.
  ghost predicate ReadsTerms(ts: seq<Token>, c: Compiler, i: nat, have: bool, ks: seq<Tree>, n: nat) {
    && i <= n <= |ts|
    && Terms(ts, c, i, true, have).0 == Present(ks) + Terms(ts, c, n, false, true).0
    && Terms(ts, c, i, true, have).1 == Terms(ts, c, n, false, true).1
  }

  lemma OneTerm(ts: seq<Token>, c: Compiler, i: nat, have: bool, k: Tree, n: nat)
    requires !EndsAnd(ts, i) && !ts[i].AndSign? && TermAt(ts, c, i) == (Some(k), n)
    ensures ReadsTerms(ts, c, i, have, [k], n)
  {
    hide TermAt;
    assert Present([k]) == [Some(k)];
  }

  lemma MoreTerms(ts: seq<Token>, c: Compiler, i: nat, have: bool, ks: seq<Tree>, n: nat, ls: seq<Tree>, e: nat)
    requires ReadsTerms(ts, c, i, have, ks, n) && n < |ts| && ts[n].AndSign? && ReadsTerms(ts, c, n + 1, true, ls, e)
    ensures ReadsTerms(ts, c, i, have, ks + ls, e)
  {
    assert Terms(ts, c, n, false, true) == Terms(ts, c, n + 1, true, true);
    hide Terms;
    assert Present(ks) + Present(ls) == Present(ks + ls);
  }

  // A term is compiled as it is written, ignoring case behind -i.
  lemma TermRead(ts: seq<Token>, c: Compiler, i: nat, t: Token, icase: bool)
    requires (icase || t.Word?) && c(t, icase).Some? && TokensAt(ts, i, PrintTerm(t, icase))
    ensures !EndsAnd(ts, i) && !ts[i].AndSign?
    ensures TermAt(ts, c, i) == (Some(Leaf(c(t, icase).value)), i + |PrintTerm(t, icase)|)
  {
    if icase {
      assert ts[i..i + 2][0] == ICase && ts[i..i + 2][1] == t;
    } else {
      OneToken(ts, i, t);
    }
  }

  // The terms of an AND are read one by one.
  lemma {:induction false} TermsRead(ts: seq<Token>, c: Compiler, i: nat, q: Query, have: bool)
    requires Compiles(q, c) && TokensAt(ts, i, PrintAnd(q))
    ensures ReadsTerms(ts, c, i, have, AndParts(q, c), i + |PrintAnd(q)|)
    decreases q, 2
  {
    hide ReadsTerms, Terms, OrParts, PrintOr;
    match q
    case Plain(t, icase) =>
      TermRead(ts, c, i, t, icase);
      hide TermAt;
      OneTerm(ts, c, i, have, Leaf(c(t, icase).value), i + |PrintTerm(t, icase)|);
    case Both(a, b) =>
      TokensSplit(ts, i, PrintAnd(a), AndSign, PrintAnd(b));
      var n := i + |PrintAnd(a)|;
      TermsRead(ts, c, i, a, have);
      TermsRead(ts, c, n + 1, b, true);
      MoreTerms(ts, c, i, have, AndParts(a, c), n, AndParts(b, c), n + 1 + |PrintAnd(b)|);
    case Either(a, b, _) =>
      ParenRead(ts, c, i, q);
      hide TermAt;
      OneTerm(ts, c, i, have, AndParts(q, c)[0], i + |PrintAnd(q)|);
      assert |AndParts(q, c)| == 1;
      assert AndParts(q, c) == [AndParts(q, c)[0]];
  }

  // An OR in parentheses is read as one term.
  lemma {:induction false} ParenRead(ts: seq<Token>, c: Compiler, i: nat, q: Query)
    requires Compiles(q, c) && q.Either? && TokensAt(ts, i, PrintAnd(q))
    ensures i < |ts| && ts[i].LParen? && TermAt(ts, c, i) == (Some(AndParts(q, c)[0]), i + |PrintAnd(q)|)
    decreases q, 1
  {
    hide Terms, AndAt, AndTree, PrintTerm, DropNones, Run, Somes, ReadsTerms, Selects;
    var p := PrintOr(q);
    assert PrintAnd(q) == [] + [LParen] + (p + [RParen]);
    TokensSplit(ts, i, [], LParen, p + [RParen]);
    assert p + [RParen] == p + [RParen] + [];
    TokensSplit(ts, i + 1, p, RParen, []);
    GroupsRead(ts, c, i + 1, q, true);
    PresentAll(OrParts(q, c));
    assert Groups(ts, c, i + 1, true).0 == Present(OrParts(q, c)) && Groups(ts, c, i + 1, true).1 == i + 1 + |p|;
    assert |OrParts(q.a, c)| > 0 && |OrParts(q.b, c)| > 0;
  }

  predicate NoAnd(ts: seq<Token>, i: nat) {
    i >= |ts| || !ts[i].AndSign?
  }

  // An AND is read as a whole, up to where no -a follows.
  lemma {:induction false} AndRead(ts: seq<Token>, c: Compiler, i: nat, q: Query)
    requires Compiles(q, c) && !q.Either? && TokensAt(ts, i, PrintOr(q)) && NoAnd(ts, i + |PrintOr(q)|)
    ensures AndAt(ts, c, i) == (Some(OrParts(q, c)[0]), i + |PrintOr(q)|)
    decreases q, 3
  {
    TermsRead(ts, c, i, q, false);
    PresentAll(AndParts(q, c));
    assert Terms(ts, c, i, true, false).0 == Present(AndParts(q, c));
  }

  // Only behind -i, arguments with a meaning of their own can be terms.
  predicate Printable(q: Query) {
    match q
    case Plain(t, icase) => icase || t.Word?
    case Either(a, b, _) => Printable(a) && Printable(b)
    case Both(a, b) => Printable(a) && Printable(b)
  }

  lemma {:induction false} CompiledPrintable(q: Query, c: Compiler)
    requires Compiles(q, c)
    ensures Printable(q)
  {
    match q
    case Plain(t, icase) =>
    case Either(a, b, _) =>
      CompiledPrintable(a, c);
      CompiledPrintable(b, c);
    case Both(a, b) =>
      CompiledPrintable(a, c);
      CompiledPrintable(b, c);
  }

  lemma StartsTerm(q: Query)
    ensures PrintOr(q) != [] && PrintAnd(q) != []
    requires Printable(q)
    ensures var t := PrintOr(q)[0]; !t.RParen? && !t.OrSign? && !t.AndSign?
    ensures var t := PrintAnd(q)[0]; !t.RParen? && !t.OrSign? && !t.AndSign?
  {
    match q
    case Plain(t, icase) =>
    case Both(a, b) =>
      StartsTerm(a);
      assert PrintOr(q)[0] == PrintAnd(q)[0] == PrintAnd(a)[0];
    case Either(a, b, _) =>
      StartsTerm(a);
      assert PrintOr(q)[0] == PrintOr(a)[0];
      assert PrintAnd(q)[0] == LParen;
  }

  // From position i to n, these operands of an OR are read.
  ghost predicate ReadsGroups(ts: seq<Token>, c: Compiler, i: nat, nested: bool, ks: seq<Tree>, n: nat) {
    && i <= n <= |ts|
    && Groups(ts, c, i, nested).0 == Present(ks) + Groups(ts, c, n, nested).0
    && Groups(ts, c, i, nested).1 == Groups(ts, c, n, nested).1
  }

  lemma OneGroup(ts: seq<Token>, c: Compiler, i: nat, nested: bool, k: Tree, n: nat)
    requires !EndsAnd(ts, i) && AndAt(ts, c, i) == (Some(k), n)
    ensures ReadsGroups(ts, c, i, nested, [k], n)
  {
    hide AndAt;
    assert Present([k]) == [Some(k)];
  }

  lemma MoreGroups(ts: seq<Token>, c: Compiler, i: nat, nested: bool, ks: seq<Tree>, n: nat, ls: seq<Tree>, e: nat)
    requires ReadsGroups(ts, c, i, nested, ks, n)
    requires ReadsGroups(ts, c, n, nested, ls, e)
             || (n < |ts| && ts[n].OrSign? && ReadsGroups(ts, c, n + 1, nested, ls, e))
    ensures ReadsGroups(ts, c, i, nested, ks + ls, e)
  {
    assert n < |ts| && ts[n].OrSign? ==> Groups(ts, c, n, nested) == Groups(ts, c, n + 1, nested);
    hide Groups;
    assert Present(ks) + Present(ls) == Present(ks + ls);
  }

  // The operands of an OR are read one by one.
  lemma {:induction false} GroupsRead(ts: seq<Token>, c: Compiler, i: nat, q: Query, nested: bool)
    requires Compiles(q, c) && TokensAt(ts, i, PrintOr(q)) && NoAnd(ts, i + |PrintOr(q)|)
    ensures ReadsGroups(ts, c, i, nested, OrParts(q, c), i + |PrintOr(q)|)
    decreases q, if q.Either? then 0 else 4
  {
    hide ReadsGroups, Groups, AndParts, PrintAnd;
    if q.Either? {
      var n := i + |PrintOr(q.a)|;
      if q.sign {
        TokensSplit(ts, i, PrintOr(q.a), OrSign, PrintOr(q.b));
        GroupsRead(ts, c, n + 1, q.b, nested);
      } else {
        CompiledPrintable(q.b, c);
        StartsTerm(q.b);
        TokensJoined(ts, i, PrintOr(q.a), PrintOr(q.b));
        GroupsRead(ts, c, n, q.b, nested);
      }
      GroupsRead(ts, c, i, q.a, nested);
      MoreGroups(ts, c, i, nested, OrParts(q.a, c), n, OrParts(q.b, c), i + |PrintOr(q)|);
    } else {
      AndRead(ts, c, i, q);
      hide AndAt;
      CompiledPrintable(q, c);
      StartsTerm(q);
      assert ts[i] == ts[i..i + |PrintOr(q)|][0];
      OneGroup(ts, c, i, nested, OrParts(q, c)[0], i + |PrintOr(q)|);
      assert |OrParts(q, c)| == 1;
      assert OrParts(q, c) == [OrParts(q, c)[0]];
    }
  }

  predicate AnySelects(ks: seq<Tree>, p: int, found: Term -> set<int>) {
    exists i :: 0 <= i < |ks| && Selects(ks[i], p, found)
  }

  predicate AllSelect(ks: seq<Tree>, p: int, found: Term -> set<int>) {
    forall i :: 0 <= i < |ks| ==> Selects(ks[i], p, found)
  }

  lemma SelectsIs(ks: seq<Tree>, p: int, found: Term -> set<int>)
    ensures Selects(Or(ks), p, found) <==> AnySelects(ks, p, found)
    ensures Selects(And(ks), p, found) <==> AllSelect(ks, p, found)
  {
  }

  lemma OnePart(k: Tree, p: int, found: Term -> set<int>)
    ensures Selects(k, p, found) <==> AnySelects([k], p, found)
    ensures Selects(k, p, found) <==> AllSelect([k], p, found)
  {
    hide Selects;
    assert [k][0] == k;
  }

  lemma Combined(ks: seq<Tree>, ls: seq<Tree>, p: int, found: Term -> set<int>)
    ensures AnySelects(ks + ls, p, found) <==> AnySelects(ks, p, found) || AnySelects(ls, p, found)
    ensures AllSelect(ks + ls, p, found) <==> AllSelect(ks, p, found) && AllSelect(ls, p, found)
  {
    hide Selects;
    assert forall i :: 0 <= i < |ks| ==> (ks + ls)[i] == ks[i];
    assert forall i :: 0 <= i < |ls| ==> (ks + ls)[|ks| + i] == ls[i];
  }

  // Combining parts gives the meaning back.
  lemma {:induction false} PartsMean(q: Query, p: int, c: Compiler, found: Term -> set<int>)
    requires Compiles(q, c)
    ensures Wants(q, p, c, found) <==> AnySelects(OrParts(q, c), p, found)
    ensures Wants(q, p, c, found) <==> AllSelect(AndParts(q, c), p, found)
  {
    hide AnySelects, AllSelect;
    match q
    case Plain(t, icase) =>
      OnePart(Leaf(c(t, icase).value), p, found);
    case Either(a, b, _) =>
      PartsMean(a, p, c, found);
      PartsMean(b, p, c, found);
      Combined(OrParts(a, c), OrParts(b, c), p, found);
      SelectsIs(OrParts(q, c), p, found);
      OnePart(Or(OrParts(q, c)), p, found);
    case Both(a, b) =>
      PartsMean(a, p, c, found);
      PartsMean(b, p, c, found);
      Combined(AndParts(a, c), AndParts(b, c), p, found);
      SelectsIs(AndParts(q, c), p, found);
      OnePart(And(AndParts(q, c)), p, found);
  }

  lemma {:induction false} RunPrefix(gs: seq<Result>) returns (ls: seq<Tree>)
    ensures Somes(gs) == Run(gs) + ls
  {
    ls := Somes(gs);
    if gs != [] && gs[0].Some? {
      ls := RunPrefix(gs[1..]);
    }
  }

  lemma ShortSomes(d: seq<Result>)
    requires d == [] || d[0].Some?
    ensures d == [] ==> Somes(d) == []
    ensures |d| == 1 ==> Somes(d) == [d[0].value]
    ensures |Somes(d)| > 0 <==> d != []
  {
  }

  // An OR never selects a page that none of its operands selects, and it
  // selects all that they select unless some of them have been lost.
  lemma OrMeans(gs: seq<Result>, p: int, found: Term -> set<int>)
    ensures OrTree(gs).Some? <==> Somes(gs) != []
    ensures OrTree(gs).Some? && Selects(OrTree(gs).value, p, found) ==> AnySelects(Somes(gs), p, found)
    ensures OrTree(gs).Some? && NoGap(gs) ==> (Selects(OrTree(gs).value, p, found) <==> AnySelects(Somes(gs), p, found))
  {
    hide AnySelects, Selects, Somes, Run, NoGap, DropNones;
    var d := DropNones(gs);
    DropKeeps(gs);
    NothingLost(gs);
    var ls := RunPrefix(d);
    Combined(Run(d), ls, p, found);
    ShortSomes(d);
    if |d| == 1 {
      OnePart(d[0].value, p, found);
    }
    SelectsIs(Run(d), p, found);
  }

  // Parsing the arguments that express a query gives an expression that
  // selects just the pages wanted.
  lemma PrintedMeans(q: Query, p: int, c: Compiler, found: Term -> set<int>)
    requires Compiles(q, c)
    ensures
      var r := Parse(PrintOr(q), c);
      r.Some? && (Selects(r.value, p, found) <==> Wants(q, p, c, found))
  {
    var ts := PrintOr(q);
    assert ts[0..|ts|] == ts;
    GroupsRead(ts, c, 0, q, false);
    PresentAll(OrParts(q, c));
    assert Groups(ts, c, 0, false).0 == Present(OrParts(q, c));
    PartsMean(q, p, c, found);
    SelectsIs(OrParts(q, c), p, found);
    if |OrParts(q, c)| == 1 {
      OnePart(OrParts(q, c)[0], p, found);
      assert OrParts(q, c) == [OrParts(q, c)[0]];
    }
  }

  /*** expression nodes *****************************************************/

  datatype Kind = TermNode | OrNode | AndNode

  class Expr {
    var kind: Kind
    var term: Option<Term>
    var next: Expr?
    var child: Expr?
    // What the node stands for, its children in order, and all nodes below.
    ghost var tree: Tree
    ghost var kids: seq<Expr>
    ghost var repr: set<Expr>

    // The link to the next sibling is no part of the node itself.
    ghost predicate Valid()
      reads this`kind, this`term, this`child, this`tree, this`kids, this`repr, repr - {this}
      decreases repr
    {
      && this in repr && (forall i :: 0 <= i < |kids| ==> kids[i] in repr && this != kids[i])
      && Shape()
      && (forall i :: 0 <= i < |kids| ==> kids[i].repr < repr && kids[i].Valid())
    }

    ghost predicate Shape()
      reads this`kind, this`term, this`child, this`tree, this`kids, this`repr, kids`next, kids`repr, kids`tree
    {
      && this in repr
      && (forall i :: 0 <= i < |kids| ==> kids[i] in repr && kids[i].repr < repr && this !in kids[i].repr)
      && (forall i, j :: 0 <= i < j < |kids| ==> kids[i].repr !! kids[j].repr)
      && (forall i :: 0 <= i < |kids| ==> kids[i].next == if i + 1 < |kids| then kids[i + 1] else null)
      && child == (if kids == [] then null else kids[0])
      && (kind.TermNode? <==> kids == [])
      && match kind
         case TermNode => term.Some? && tree == Leaf(term.value)
         case OrNode => tree.Or? && Trees(tree.kids)
         case AndNode => tree.And? && Trees(tree.kids)
    }

    // The children stand for these trees.
    ghost predicate Trees(ks: seq<Tree>)
      reads this`kids, kids`tree
    {
      |ks| == |kids| && forall i :: 0 <= i < |kids| ==> kids[i].tree == ks[i]
    }

    constructor Single(t: Term)
      ensures Valid() && next == null && tree == Leaf(t) && fresh(repr)
    {
      kind, term, next, child := TermNode, Some(t), null, null;
      tree, kids, repr := Leaf(t), [], {this};
    }

    // A new group with one child.
    constructor Group(kind: Kind, first: Expr)
      requires !kind.TermNode? && first.Valid() && first.next == null
      ensures Valid() && next == null && this.kind == kind && kids == [first] && repr == first.repr + {this}
      ensures tree == if kind.OrNode? then Or([first.tree]) else And([first.tree])
    {
      this.kind, term, next, child := kind, None, null, first;
      tree := if kind.OrNode? then Or([first.tree]) else And([first.tree]);
      kids, repr := [first], first.repr + {this};
    }
  }

  lemma Opened(e: Expr)
    requires e.Valid()
    ensures e.Shape() && forall i :: 0 <= i < |e.kids| ==> e.kids[i].Valid() && e.kids[i] in e.kids[i].repr
  {
  }

  lemma Closed(e: Expr)
    requires e.Shape() && forall i :: 0 <= i < |e.kids| ==> e.kids[i].Valid() && e.kids[i] in e.kids[i].repr
    ensures e.Valid()
  {
  }

  // A node linked behind the last child of a group is a child, too.
  ghost method Adopt(group: Expr, ks: seq<Expr>, x: Expr)
    requires group.kids == ks != [] && x.Valid() && x in x.repr && x.next == null && x.repr !! group.repr
    requires group in group.repr && !group.kind.TermNode? && group.child == ks[0]
    requires forall i :: 0 <= i < |ks| ==>
               ks[i].Valid() && ks[i] in ks[i].repr && ks[i].repr < group.repr && group !in ks[i].repr
    requires forall i {:trigger ks[i].next} :: 0 <= i < |ks| ==> ks[i].next == if i + 1 < |ks| then ks[i + 1] else x
    requires forall i, j :: 0 <= i < j < |ks| ==> ks[i].repr !! ks[j].repr
    requires if group.kind.OrNode? then group.tree.Or? && group.Trees(group.tree.kids)
             else group.tree.And? && group.Trees(group.tree.kids)
    modifies group`tree, group`kids, group`repr
    ensures group.Valid() && group.kids == ks + [x] && group.repr == old(group.repr) + x.repr && group in group.repr
    ensures group.tree == Extended(old(group.tree), x.tree)
  {
    hide Expr.Valid;
    group.kids := ks + [x];
    group.repr := group.repr + x.repr;
    group.tree := Extended(group.tree, x.tree);
    forall i | 0 <= i < |ks| + 1
      ensures group.kids[i].Valid() && group.kids[i] in group.kids[i].repr
    {
      assert i < |ks| ==> ks[i].Valid();
    }
    forall i | 0 <= i < |ks| + 1
      ensures group.kids[i].next == if i + 1 < |ks| + 1 then group.kids[i + 1] else null
    {
      if i < |ks| {
        assert group.kids[i] == ks[i] && ks[i].next == old(ks[i].next);
      }
    }
    Closed(group);
  }

  // Give the last child of a group a sibling.
  method Append(ghost group: Expr, last: Expr, x: Expr)
    requires group.Valid() && group.kids != [] && last == group.kids[|group.kids| - 1]
    requires x.Valid() && x in x.repr && x.next == null && x.repr !! group.repr
    modifies group`tree, group`kids, group`repr, last`next
    ensures group.Valid() && group.kids == old(group.kids) + [x] && group.repr == old(group.repr) + x.repr
    ensures x.Valid() && x.next == null && last.next == x && group.next == old(group.next)
    ensures group.tree == Extended(old(group.tree), x.tree)
  {
    hide Expr.Valid;
    Opened(group);
    ghost var ks := group.kids;
    last.next := x;
    Adopt(group, ks, x);
  }

  function Extended(g: Tree, k: Tree): Tree {
    match g
    case Or(ks) => Or(ks + [k])
    case And(ks) => And(ks + [k])
    case Leaf(_) => g
  }

  /*** the parser ***********************************************************/

  lemma {:induction false} DropSnoc(gs: seq<Result>, g: Result)
    ensures DropNones(gs + [g]) == if DropNones(gs) != [] then DropNones(gs) + [g] else if g.Some? then [g] else []
  {
    if gs != [] {
      assert (gs + [g])[1..] == gs[1..] + [g];
      if gs[0].None? {
        DropSnoc(gs[1..], g);
      }
    }
  }

  lemma {:induction false} SomesSnoc(gs: seq<Result>, g: Result)
    ensures Somes(gs + [g]) == if g.Some? then Somes(gs) + [g.value] else Somes(gs)
  {
    if gs != [] {
      assert (gs + [g])[1..] == gs[1..] + [g];
      SomesSnoc(gs[1..], g);
    }
  }

  lemma {:induction false} RunSnoc(gs: seq<Result>, g: Result)
    ensures Run(gs + [g]) == if g.Some? && |Run(gs)| == |gs| then Run(gs) + [g.value] else Run(gs)
  {
    if gs != [] {
      assert (gs + [g])[1..] == gs[1..] + [g];
      RunSnoc(gs[1..], g);
    }
  }

  // The node e stands for the result r.
  ghost predicate Made(e: Expr?, r: Result)
    reads e, if e == null then {} else e.repr
  {
    if e == null then r.None? else r.Some? && e.Valid() && e in e.repr && e.next == null && e.tree == r.value
  }

  // The group parent has these children, and child is the last one.
  ghost predicate Grouped(parent: Expr, child: Expr?, kind: Kind, ks: seq<Tree>)
    reads parent, parent.repr, child
  {
    && parent.Valid() && parent in parent.repr && parent.next == null && parent.kind == kind
    && parent.kids != [] && child == parent.kids[|parent.kids| - 1] && child.next == null
    && parent.tree == if kind.OrNode? then Or(ks) else And(ks)
  }

  // The variables of expr_and() after these results of exprterm().
  ghost predicate AndState(parent: Expr?, child: Expr?, done: seq<Result>)
    reads parent, child, if parent == null then {} else parent.repr, if child == null then {} else child.repr
  {
    var d := DropNones(done);
    if parent != null then |d| > 1 && Grouped(parent, child, AndNode, Somes(d))
    else |d| <= 1 && Made(child, if d == [] then None else d[0])
  }

  lemma TermsNext(ts: seq<Token>, c: Compiler, i: nat, need: bool, have: bool)
    requires i <= |ts|
    ensures
      var r := Terms(ts, c, i, need, have);
      if EndsAnd(ts, i) then r == ([], i)
      else if ts[i].AndSign? then r == Terms(ts, c, i + 1, true, have)
      else if !need then r == ([], i)
      else
        var x := TermAt(ts, c, i);
        var have' := have || x.0.Some?;
        r.0 == [x.0] + Terms(ts, c, x.1, !have', have').0 && r.1 == Terms(ts, c, x.1, !have', have').1
  {
    hide TermAt;
  }

  lemma GroupsNext(ts: seq<Token>, c: Compiler, i: nat, nested: bool)
    requires i <= |ts|
    ensures
      var r := Groups(ts, c, i, nested);
      if i == |ts| || (ts[i].RParen? && nested) then r == ([], i)
      else if ts[i].RParen? || ts[i].OrSign? then r == Groups(ts, c, i + 1, nested)
      else
        var g := AndAt(ts, c, i);
        r.0 == [g.0] + Groups(ts, c, g.1, nested).0 && r.1 == Groups(ts, c, g.1, nested).1
  {
    hide AndAt;
  }

  // One more result of exprterm() behind the first one.
  method AndMore(ts: seq<Token>, c: Compiler, argi: nat, group: Expr?, first: Expr, ghost done: seq<Result>)
    returns (parent: Expr, child: Expr, i: nat)
    requires argi < |ts| && AndState(group, first, done)
    modifies if group == null then {} else {group}, first`next
    ensures i == TermAt(ts, c, argi).1 && AndState(parent, child, done + [TermAt(ts, c, argi).0])
    ensures if group == null then fresh(parent) && fresh(parent.repr - old(first.repr))
            else parent == group && fresh(parent.repr - old(group.repr))
    ensures child == first || fresh(child)
    decreases |ts| - argi, 1
  {
    hide Expr.Valid, Expr.Shape, TermAt, DropNones, Somes, Run;
    ghost var x, d := TermAt(ts, c, argi).0, DropNones(done);
    DropSnoc(done, x);
    SomesSnoc(d, x);
    OneSome(d);
    if group == null {
      parent := new Expr.Group(AndNode, first);
    } else {
      parent := group;
    }
    assert Grouped(parent, first, AndNode, Somes(d));
    var last;
    last, i := ExprTerm(ts, c, argi);
    child := Extend(parent, first, last, AndNode, Somes(d));
  }

  method ExprAnd(ts: seq<Token>, c: Compiler, argi: nat) returns (e: Expr?, i: nat)
    requires argi <= |ts|
    ensures i == AndAt(ts, c, argi).1 && Made(e, AndAt(ts, c, argi).0)
    ensures e != null ==> fresh(e.repr)
    decreases |ts| - argi, 2
  {
    hide Expr.Valid, Expr.Shape, TermAt, DropNones, Somes, Terms;
    i := argi;
    var needterm := true;
    var parent: Expr?, child: Expr? := null, null;
    ghost var done: seq<Result> := [];
    assert DropNones([]) == [] by {
      NothingYet();
    }
    while i < |ts|
      invariant argi <= i <= |ts|
      invariant AndState(parent, child, done)
      invariant parent != null ==> fresh(parent.repr)
      invariant child != null ==> fresh(child) && (parent == null ==> fresh(child.repr))
      invariant Terms(ts, c, argi, true, false).0 == done + Terms(ts, c, i, needterm, child != null).0
      invariant Terms(ts, c, argi, true, false).1 == Terms(ts, c, i, needterm, child != null).1
      decreases |ts| - i
    {
      TermsNext(ts, c, i, needterm, child != null);
      if ts[i].RParen? {
        break;
      }
      if ts[i].OrSign? {
        break;
      }
      if ts[i].AndSign? {
        needterm := true;
        i := i + 1;
        continue;
      }
      if !needterm {
        break;
      }
      ghost var was, x := done, TermAt(ts, c, i).0;
      done := done + [x];
      if child == null {
        DropSnoc(was, x);
        child, i := ExprTerm(ts, c, i);
        needterm := child == null;
        continue;
      }
      needterm := false;
      parent, child, i := AndMore(ts, c, i, parent, child, was);
    }
    TermsNext(ts, c, i, needterm, child != null);
    assert Terms(ts, c, argi, true, false).0 == done;
    e := if parent == null then child else parent;
  }

  lemma NothingYet()
    ensures DropNones([]) == [] && OrState(null, null, []) && Made(null, OrTree([]))
  {
  }

  lemma OrResult(parent: Expr?, child: Expr?, done: seq<Result>)
    requires OrState(parent, child, done)
    ensures Made(if parent == null then child else parent, OrTree(done))
  {
    hide Expr.Valid, Expr.Shape, DropNones, Run;
    OneSome(DropNones(done));
  }

  lemma OneSome(d: seq<Result>)
    ensures |d| == 1 && d[0].Some? ==> Somes(d) == Run(d) == [d[0].value]
  {
  }

  // Link a new node, if there is one, behind the last child of a group.
  method Extend(ghost group: Expr, child: Expr, last: Expr?, ghost kind: Kind,
      ghost ks: seq<Tree>) returns (child': Expr)
    requires !kind.TermNode? && Grouped(group, child, kind, ks)
    requires last != null ==> last.Valid() && last in last.repr && last.next == null && last.repr !! group.repr
    modifies group`tree, group`kids, group`repr, child`next
    ensures Grouped(group, child', kind, if last == null then ks else ks + [last.tree])
    ensures group.repr == if last == null then old(group.repr) else old(group.repr) + last.repr
    ensures child' == if last == null then child else last
  {
    hide Expr.Valid, Expr.Shape;
    child' := child;
    if last != null {
      Append(group, child, last);
      child' := last;
    }
  }

  method ExprTerm(ts: seq<Token>, c: Compiler, argi: nat) returns (e: Expr?, i: nat)
    requires argi < |ts|
    ensures i == TermAt(ts, c, argi).1 && Made(e, TermAt(ts, c, argi).0)
    ensures e != null ==> fresh(e.repr)
    decreases |ts| - argi, 0
  {
    i := argi;
    if ts[i].LParen? {
      i := i + 1;
      e, i := ExprComp(ts, c, i);
      if i < |ts| {
        assert ts[i].RParen?;
        i := i + 1;
      }
      return;
    }
    var icase := ts[i].ICase? && i + 1 < |ts|;
    if icase {
      i := i + 1;
    }
    var t := c(ts[i], icase);
    i := i + 1;
    if t.None? {
      e := null;
    } else {
      e := new Expr.Single(t.value);
    }
  }

  // The variables of exprcomp() after these results of expr_and(); once a
  // result is missing behind others, child is no longer in the list of parent.
  ghost predicate OrState(parent: Expr?, child: Expr?, done: seq<Result>)
    reads parent, child, if parent == null then {} else parent.repr, if child == null then {} else child.repr
  {
    var d := DropNones(done);
    if parent == null then |d| <= 1 && Made(child, if d == [] then None else d[0])
    else if |Run(d)| == |d| then |d| > 1 && Grouped(parent, child, OrNode, Run(d))
    else |d| > 1 && Made(parent, Some(Or(Run(d)))) && (child != null ==> child !in parent.repr)
  }

  // A result of expr_and() behind which the list of children starts.
  method OrFirst(ts: seq<Token>, c: Compiler, argi: nat, group: Expr?, ghost done: seq<Result>)
    returns (child: Expr?, i: nat)
    requires argi < |ts| && OrState(group, null, done)
    ensures i == AndAt(ts, c, argi).1 && OrState(group, child, done + [AndAt(ts, c, argi).0])
    ensures child != null ==> fresh(child) && fresh(child.repr)
    decreases |ts| - argi, 3
  {
    hide Expr.Valid, Expr.Shape, AndAt, DropNones, Run;
    ghost var x := AndAt(ts, c, argi).0;
    DropSnoc(done, x);
    RunSnoc(DropNones(done), x);
    child, i := ExprAnd(ts, c, argi);
  }

  // One more result of expr_and() behind the first one.
  method OrMore(ts: seq<Token>, c: Compiler, argi: nat, group: Expr?, first: Expr, ghost done: seq<Result>)
    returns (parent: Expr, child: Expr?, i: nat)
    requires argi < |ts| && OrState(group, first, done)
    modifies if group == null then {} else {group}, first`next
    ensures i == AndAt(ts, c, argi).1 && OrState(parent, child, done + [AndAt(ts, c, argi).0])
    ensures if group == null then fresh(parent) && fresh(parent.repr - old(first.repr))
            else parent == group && fresh(parent.repr - old(group.repr))
    ensures child != null ==> fresh(child)
    decreases |ts| - argi, 3
  {
    hide Expr.Valid, Expr.Shape, AndAt, DropNones, Run;
    ghost var x, d := AndAt(ts, c, argi).0, DropNones(done);
    DropSnoc(done, x);
    RunSnoc(d, x);
    OneSome(d);
    if group == null {
      parent := new Expr.Group(OrNode, first);
    } else {
      parent := group;
    }
    var last;
    last, i := ExprAnd(ts, c, argi);
    child := Continue(parent, first, last, d);
  }

  method ExprComp(ts: seq<Token>, c: Compiler, argi: nat) returns (e: Expr?, i: nat)
    requires argi <= |ts|
    ensures i == Groups(ts, c, argi, argi > 0).1 && Made(e, OrTree(Groups(ts, c, argi, argi > 0).0))
    ensures e != null ==> fresh(e.repr)
    decreases |ts| - argi, 4
  {
    hide Expr.Valid, Expr.Shape, AndAt, DropNones, Run, Groups, OrState, Made, OrTree;
    i := argi;
    var nested := argi > 0;
    if i == |ts| {
      GroupsNext(ts, c, i, nested);
      NothingYet();
      return null, i;
    }
    var parent: Expr?, child: Expr? := null, null;
    ghost var done: seq<Result> := [];
    NothingYet();
    while i < |ts|
      invariant argi <= i <= |ts|
      invariant OrState(parent, child, done)
      invariant parent != null ==> fresh(parent) && fresh(parent.repr)
      invariant child != null ==> fresh(child) && (parent == null ==> fresh(child.repr))
      invariant Groups(ts, c, argi, nested).0 == done + Groups(ts, c, i, nested).0
      invariant Groups(ts, c, argi, nested).1 == Groups(ts, c, i, nested).1
      decreases |ts| - i
    {
      GroupsNext(ts, c, i, nested);
      if ts[i].RParen? {
        if nested {
          break;
        }
        i := i + 1;
        continue;
      }
      if ts[i].OrSign? {
        i := i + 1;
        continue;
      }
      ghost var was, x := done, AndAt(ts, c, i).0;
      done := done + [x];
      if child == null {
        child, i := OrFirst(ts, c, i, parent, was);
        continue;
      }
      parent, child, i := OrMore(ts, c, i, parent, child, was);
    }
    GroupsNext(ts, c, i, nested);
    assert Groups(ts, c, argi, nested).0 == done;
    OrResult(parent, child, done);
    e := if parent == null then child else parent;
  }

  // Set the link of child to a new node, or to none, and go on there.
  method Continue(ghost group: Expr, child: Expr, last: Expr?, ghost d: seq<Result>) returns (child': Expr?)
    requires |d| > 0 && (|Run(d)| == |d| ==> Grouped(group, child, OrNode, Run(d)))
    requires |Run(d)| != |d| ==> Made(group, Some(Or(Run(d)))) && child !in group.repr
    requires last != null ==>
               last.Valid() && last in last.repr && last.next == null && last.repr !! group.repr && last != child
    modifies group`tree, group`kids, group`repr, child`next
    ensures child' == last
    ensures |Run(d)| == |d| && last != null ==> Grouped(group, child', OrNode, Run(d) + [last.tree])
    ensures |Run(d)| != |d| || last == null ==> Made(group, Some(Or(Run(d)))) && (last != null ==> last !in group.repr)
    ensures group.repr == if |Run(d)| == |d| && last != null then old(group.repr) + last.repr else old(group.repr)
  {
    hide Expr.Valid, Expr.Shape, Run;
    child' := last;
    if last != null {
      ghost var linked, ks := |Run(d)| == |d|, group.kids;
      if linked {
        Opened(group);
      }
      child.next := last;
      if linked {
        Adopt(group, ks, last);
      }
    }
  }
}
