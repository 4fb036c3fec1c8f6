// Splitting the words of an equation into text boxes: part of eqn_parse() in
// userland/mandoc/eqn.c.
module EqnWords {
  import opened Options
  import opened EqnTree
  import Escape

  datatype Class = Letter | Digit | Mark

  predicate IsAlpha(c: char) {
    'a' <= c <= 'z' || 'A' <= c <= 'Z'
  }

  // The class of the character at position i behind one of the class before.
  function ClassAt(s: string, i: nat, before: Class): Class {
    var c := Escape.At(s, i);
    if IsAlpha(c) then Letter
    else if Escape.IsDigit(c) || (c == '.' && (before == Digit || Escape.IsDigit(Escape.At(s, i + 1)))) then Digit
    else Mark
  }

  function FontOf(c: Class): Font {
    if c == Letter then Italic else Roman
  }

  // Where the text box ends that has a character of class c at position i,
  // and the class of its last character; the escape scanner may fail.
  function Cut(s: string, i: nat, c: Class): (r: Option<(nat, Class)>)
    requires i < |s| && '\0' !in s
    ensures r.Some? ==> i < r.value.0 <= |s|
    decreases |s| - i
  {
    var d := ClassAt(s, i + 1, c);
    if s[i] == '\\' && Escape.EscapeAt(s, i + 1).Abort? then None
    else
      var n := if s[i] == '\\' then Escape.EscapeAt(s, i + 1).end else i + 1;
      if n < |s| && d == c && s[i] != ',' && s[n] != ',' then Cut(s, n, d) else Some((n, c))
  }

  // The text boxes for a word.
  function Pieces(s: string): (r: Option<seq<Leaf>>)
    requires s != [] && '\0' !in s
  {
    var (n, c) :- Cut(s, 0, ClassAt(s, 0, Letter));
    if n == |s| then Some([Leaf(s, FontOf(c))])
    else
      var rest :- Pieces(s[n..]);
      Some([Leaf(s[..n], FontOf(c))] + rest)
  }

  // All characters of a text box are of the class of its first one.
  lemma {:induction false} CutClass(s: string, i: nat, c: Class)
    requires i < |s| && '\0' !in s && Cut(s, i, c).Some?
    ensures Cut(s, i, c).value.1 == c
    decreases |s| - i
  {
    hide Escape.EscapeAt, ClassAt;
    var n := if s[i] == '\\' then Escape.EscapeAt(s, i + 1).end else i + 1;
    if n < |s| && ClassAt(s, i + 1, c) == c && s[i] != ',' && s[n] != ',' {
      CutClass(s, n, c);
    }
  }

  // A word that is not split: letters are italic.
  lemma OnePiece(s: string)
    requires s != [] && '\0' !in s && Pieces(s).Some? && |Pieces(s).value| == 1
    ensures Pieces(s).value[0] == Leaf(s, if IsAlpha(s[0]) then Italic else Roman)
  {
    CutClass(s, 0, ClassAt(s, 0, Letter));
    var n := Cut(s, 0, ClassAt(s, 0, Letter)).value.0;
    if n < |s| {
      PiecesJoin(s[n..]);
    }
  }

  function Concat(ls: seq<Leaf>): string {
    if ls == [] then [] else Concat(ls[..|ls| - 1]) + ls[|ls| - 1].text
  }

  lemma {:induction false} ConcatPlus(a: seq<Leaf>, b: seq<Leaf>)
    ensures Concat(a + b) == Concat(a) + Concat(b)
  {
    if b == [] {
      assert a + b == a;
    } else {
      var c, l, all := b[..|b| - 1], b[|b| - 1], a + b;
      ConcatPlus(a, c);
      assert all[..|all| - 1] == a + c && all[|all| - 1] == l;
      assert Concat(b) == Concat(c) + l.text;
      calc {
        Concat(all);
        (Concat(a) + Concat(c)) + l.text;
        Concat(a) + (Concat(c) + l.text);
      }
    }
  }

  lemma ConcatOne(l: Leaf)
    ensures Concat([l]) == l.text
  {
  }

  // Nothing is lost, and no box is empty.
  lemma {:induction false} PiecesJoin(s: string)
    requires s != [] && '\0' !in s && Pieces(s).Some?
    ensures Pieces(s).value != [] && Concat(Pieces(s).value) == s
    ensures forall i :: 0 <= i < |Pieces(s).value| ==> Pieces(s).value[i].text != []
  {
    hide Cut, ClassAt, Concat, FontOf;
    var (n, c) := Cut(s, 0, ClassAt(s, 0, Letter)).value;
    if n < |s| {
      var head, rest := Leaf(s[..n], FontOf(c)), Pieces(s[n..]).value;
      assert Pieces(s).value == [head] + rest;
      PiecesJoin(s[n..]);
      ConcatPlus([head], rest);
      ConcatOne(head);
      assert s == s[..n] + s[n..];
    } else {
      ConcatOne(Leaf(s, FontOf(c)));
    }
  }

  // Without escape sequences, a text box is a longest run of characters of
  // one class, but a comma stands alone.
  lemma {:induction false} CutIsRun(s: string, i: nat, c: Class)
    requires i < |s| && '\0' !in s && '\\' !in s
    ensures
      && Cut(s, i, c).Some? && Cut(s, i, c).value.1 == c
      && var n := Cut(s, i, c).value.0;
         && (forall k :: i < k < n ==> ClassAt(s, k, c) == c) && (i + 1 < n ==> forall k :: i <= k < n ==> s[k] != ',')
         && (n < |s| ==> ClassAt(s, n, c) != c || s[n] == ',' || s[n - 1] == ',')
    decreases |s| - i
  {
    if i + 1 < |s| && ClassAt(s, i + 1, c) == c && s[i] != ',' && s[i + 1] != ',' {
      CutIsRun(s, i + 1, c);
    }
  }

  // The scanner does not fail if asterisks only ask for the device name.
  lemma {:induction false} CutSucceeds(s: string, i: nat, c: Class)
    requires i < |s| && '\0' !in s && Escape.DeviceOnly(s)
    ensures Cut(s, i, c).Some?
    decreases |s| - i
  {
    hide Escape.EscapeAt, Escape.DeviceOnly, ClassAt;
    if s[i] == '\\' {
      Escape.NeverAborts(s, i + 1);
    }
    var n := if s[i] == '\\' then Escape.EscapeAt(s, i + 1).end else i + 1;
    var d := ClassAt(s, i + 1, c);
    if n < |s| && d == c && s[i] != ',' && s[n] != ',' {
      CutSucceeds(s, n, d);
    }
  }

  lemma {:induction false} PiecesSucceed(s: string)
    requires s != [] && '\0' !in s && Escape.DeviceOnly(s)
    ensures Pieces(s).Some?
  {
    hide Cut, Escape.DeviceOnly, ClassAt;
    CutSucceeds(s, 0, ClassAt(s, 0, Letter));
    var n := Cut(s, 0, ClassAt(s, 0, Letter)).value.0;
    if n < |s| {
      DeviceOnlyBehind(s, n);
      PiecesSucceed(s[n..]);
    }
  }

  lemma DeviceOnlyBehind(s: string, n: nat)
    requires n <= |s| && Escape.DeviceOnly(s)
    ensures Escape.DeviceOnly(s[n..])
  {
    var t := s[n..];
    forall i | 0 <= i < |t| && t[i] == '*' && Escape.Introduced(t, i)
      ensures Escape.DeviceAt(t, i + 1)
    {
      assert s[n + i] == '*' && Escape.Introduced(s, n + i);
      var p := n + i + 1;
      assert p + 2 < |s| ==> t[i + 1..i + 4] == s[p..p + 3];
      assert p + 3 < |s| ==> t[i + 1..i + 5] == s[p..p + 4];
    }
  }

  // One text box behind those done.
  lemma PiecesStep(s: string, done: seq<Leaf>)
    requires s != [] && '\0' !in s
    ensures
      match Cut(s, 0, ClassAt(s, 0, Letter))
      case None => Pieces(s) == None
      case Some(cut) =>
        var (n, c) := cut;
        var piece := Leaf(s[..n], FontOf(c));
        && (n == |s| ==> s[..n] == s)
        && if n == |s| then Pieces(s).Some? && done + Pieces(s).value == done + [piece]
           else if Pieces(s[n..]).Some? then
             Pieces(s).Some? && done + Pieces(s).value == done + [piece] + Pieces(s[n..]).value
           else Pieces(s) == None
  {
    hide Cut, ClassAt, FontOf;
    var r := Cut(s, 0, ClassAt(s, 0, Letter));
    if r.Some? {
      var (n, c) := r.value;
      var piece := Leaf(s[..n], FontOf(c));
      if n == |s| {
        assert s[..n] == s;
      } else if Pieces(s[n..]).Some? {
        var rest := Pieces(s[n..]).value;
        assert Pieces(s).value == [piece] + rest;
        assert done + ([piece] + rest) == done + [piece] + rest;
      }
    }
  }

  // Find the end of the text box.
  method NextCut(s: string) returns (r: Option<(nat, Class)>)
    requires s != [] && '\0' !in s
    ensures r == Cut(s, 0, ClassAt(s, 0, Letter))
  {
    hide Escape.EscapeAt, ClassAt;
    var i, c := 0, ClassAt(s, 0, Letter);
    while true
      invariant i < |s| && Cut(s, 0, ClassAt(s, 0, Letter)) == Cut(s, i, c)
      decreases |s| - i
    {
      var n, d := i + 1, ClassAt(s, i + 1, c);
      if s[i] == '\\' {
        var e := Escape.ReadEscape(s, i + 1);
        if e.Abort? {
          return None;
        }
        n := e.end;
      }
      if n == |s| || d != c || s[i] == ',' || s[n] == ',' {
        return Some((n, c));
      }
      i, c := n, d;
    }
  }
}
