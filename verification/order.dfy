// String comparison and sorting, as the database writer uses them
// (strcmp(3), strcasecmp(3) and qsort(3)).
module Order {
  import opened Bytes

  ghost predicate Ordered<T>(s: seq<T>, leq: (T, T) -> bool) {
    forall i, j :: 0 <= i < j < |s| ==> leq(s[i], s[j])
  }

  // The comparison is total and transitive on the given elements.
  ghost predicate Comparable<T>(s: seq<T>, leq: (T, T) -> bool) {
    && (forall x, y :: x in s && y in s ==> leq(x, y) || leq(y, x))
    && (forall x, y, z :: x in s && y in s && z in s && leq(x, y) && leq(y, z) ==> leq(x, z))
  }

  ghost predicate SortedVersion<T>(r: seq<T>, s: seq<T>, leq: (T, T) -> bool) {
    multiset(r) == multiset(s) && Ordered(r, leq)
  }

  lemma SameElements<T>(r: seq<T>, s: seq<T>)
    requires multiset(r) == multiset(s)
    ensures |r| == |s|
    ensures forall x :: x in r <==> x in s
  {
    assert |multiset(r)| == |multiset(s)|;
    forall x
      ensures x in r <==> x in s
    {
      assert x in r <==> x in multiset(r);
    }
  }

  lemma InsertKeepsOrder<T>(r: seq<T>, x: T, k: nat, leq: (T, T) -> bool)
    requires k <= |r| && Ordered(r, leq)
    requires forall j :: 0 <= j < k ==> leq(r[j], x)
    requires forall j :: k <= j < |r| ==> leq(x, r[j])
    ensures SortedVersion(r[..k] + [x] + r[k..], r + [x], leq)
  {
    assert r == r[..k] + r[k..];
    var s := r[..k] + [x] + r[k..];
    forall i, j | 0 <= i < j < |s|
      ensures leq(s[i], s[j])
    {
      assert s[i] == if i < k then r[i] else if i == k then x else r[i - 1];
      assert s[j] == if j < k then r[j] else if j == k then x else r[j - 1];
    }
  }

  // Where x belongs in an ordered sequence.
  method Place<T>(r: seq<T>, x: T, leq: (T, T) -> bool) returns (k: nat)
    requires Ordered(r, leq) && Comparable(r + [x], leq)
    ensures k <= |r|
    ensures forall j :: 0 <= j < k ==> leq(r[j], x)
    ensures forall j :: k <= j < |r| ==> leq(x, r[j])
  {
    k := |r|;
    assert forall j :: 0 <= j < |r| ==> r[j] in r + [x];
    assert x in r + [x];
    while k > 0 && !leq(r[k - 1], x)
      invariant k <= |r|
      invariant forall j :: k <= j < |r| ==> leq(x, r[j])
    {
      k := k - 1;
    }
    forall j | 0 <= j < k
      ensures leq(r[j], x)
    {
      assert j < k - 1 ==> leq(r[j], r[k - 1]);
    }
  }

  // Sort by insertion; equal elements may come out in any order with qsort(3).
  method Sort<T>(s: seq<T>, leq: (T, T) -> bool) returns (r: seq<T>)
    requires Comparable(s, leq)
    ensures SortedVersion(r, s, leq)
  {
    r := [];
    for i := 0 to |s|
      invariant SortedVersion(r, s[..i], leq)
    {
      SameElements(r, s[..i]);
      assert s[..i + 1] == s[..i] + [s[i]];
      assert forall x :: x in r + [s[i]] ==> x in s;
      var k := Place(r, s[i], leq);
      InsertKeepsOrder(r, s[i], k, leq);
      r := r[..k] + [s[i]] + r[k..];
    }
    assert s[..|s|] == s;
  }

  // strcmp(a, b) <= 0
  predicate LexLeq(a: Str, b: Str) {
    a == [] || (b != [] && (a[0] < b[0] || (a[0] == b[0] && LexLeq(a[1..], b[1..]))))
  }

  function Lower(c: Byte): Byte {
    if 65 <= c <= 90 then c + 32 else c
  }

  // strcasecmp(a, b) <= 0
  predicate CaseLeq(a: Str, b: Str) {
    a == [] ||
    (b != [] && (Lower(a[0]) < Lower(b[0]) || (Lower(a[0]) == Lower(b[0]) && CaseLeq(a[1..], b[1..]))))
  }

  // The value of a byte as a signed character.
  function Signed(b: Byte): int {
    if b < 128 then b else b - 256
  }

  // compare_names() <= 0: the larger mask first, then by name.
  predicate NameLeq(a: Str, b: Str) {
    a == [] || b == [] || Signed(a[0]) > Signed(b[0]) || (a[0] == b[0] && CaseLeq(a[1..], b[1..]))
  }

  lemma {:induction false} LexTotal(a: Str, b: Str)
    ensures LexLeq(a, b) || LexLeq(b, a)
    ensures LexLeq(a, b) && LexLeq(b, a) ==> a == b
  {
    if a != [] && b != [] && a[0] == b[0] {
      LexTotal(a[1..], b[1..]);
      assert a == [a[0]] + a[1..] && b == [b[0]] + b[1..];
    }
  }

  lemma {:induction false} LexTransitive(a: Str, b: Str, c: Str)
    requires LexLeq(a, b) && LexLeq(b, c)
    ensures LexLeq(a, c)
  {
    if a != [] && b != [] && a[0] == b[0] == c[0] {
      LexTransitive(a[1..], b[1..], c[1..]);
    }
  }

  // In a dictionary, a comes before b, or they are the same: a is the
  // beginning of b, or its byte is the smaller one where they first differ.
  ghost predicate Alphabetical(a: Str, b: Str) {
    a <= b || exists i :: 0 <= i < |a| && i < |b| && a[..i] == b[..i] && a[i] < b[i]
  }

  // All upper case letters replaced by lower case letters.
  function Folded(a: Str): (r: Str)
    ensures |r| == |a|
    ensures forall i :: 0 <= i < |a| ==> r[i] == if 'A' as int <= a[i] <= 'Z' as int then a[i] + 32 else a[i]
  {
    seq(|a|, i requires 0 <= i < |a| => Lower(a[i]))
  }

  lemma AlphabeticalNext(a: Str, b: Str)
    requires a != [] && b != []
    ensures Alphabetical(a, b) <==> a[0] < b[0] || (a[0] == b[0] && Alphabetical(a[1..], b[1..]))
  {
    assert a == [a[0]] + a[1..] && b == [b[0]] + b[1..];
    if a[0] == b[0] {
      forall i | 0 <= i < |a| - 1 && i < |b| - 1
        ensures a[1..][..i] == b[1..][..i] <==> a[..i + 1] == b[..i + 1]
      {
        assert a[..i + 1] == [a[0]] + a[1..][..i] && b[..i + 1] == [b[0]] + b[1..][..i];
        assert a[..i + 1][1..] == a[1..][..i] && b[..i + 1][1..] == b[1..][..i];
      }
      if a <= b {
        assert a[1..] == b[1..][..|a| - 1];
      }
      if exists i :: 0 <= i < |a| && i < |b| && a[..i] == b[..i] && a[i] < b[i] {
        var i :| 0 <= i < |a| && i < |b| && a[..i] == b[..i] && a[i] < b[i];
        assert a[1..][i - 1] == a[i] && b[1..][i - 1] == b[i];
      }
      if exists i :: 0 <= i < |a| - 1 && i < |b| - 1 && a[1..][..i] == b[1..][..i] && a[1..][i] < b[1..][i] {
        var i :| 0 <= i < |a| - 1 && i < |b| - 1 && a[1..][..i] == b[1..][..i] && a[1..][i] < b[1..][i];
        assert a[i + 1] < b[i + 1];
      }
    } else {
      forall i | 0 < i < |a| && i < |b|
        ensures a[..i] != b[..i]
      {
        assert a[..i][0] == a[0] && b[..i][0] == b[0];
      }
      if a[0] < b[0] {
        assert a[..0] == b[..0];
      }
    }
  }

  lemma {:induction false} LexIsAlphabetical(a: Str, b: Str)
    ensures LexLeq(a, b) <==> Alphabetical(a, b)
  {
    if a != [] && b != [] {
      AlphabeticalNext(a, b);
      LexIsAlphabetical(a[1..], b[1..]);
    }
  }

  // Upper and lower case letters are the same for names.
  lemma {:induction false} CaseIsAlphabetical(a: Str, b: Str)
    ensures CaseLeq(a, b) <==> Alphabetical(Folded(a), Folded(b))
  {
    if a != [] && b != [] {
      AlphabeticalNext(Folded(a), Folded(b));
      CaseIsAlphabetical(a[1..], b[1..]);
      assert Folded(a)[1..] == Folded(a[1..]) && Folded(b)[1..] == Folded(b[1..]);
    }
  }

  // Names come by mask, the larger one first, and then in alphabetical order.
  lemma NamesByMask(a: Str, b: Str)
    requires a != [] && b != [] && a[0] < 128 && b[0] < 128
    ensures NameLeq(a, b) <==> a[0] > b[0] || (a[0] == b[0] && Alphabetical(Folded(a[1..]), Folded(b[1..])))
  {
    CaseIsAlphabetical(a[1..], b[1..]);
  }

  // Different strings in ascending order.
  ghost predicate Rising(l: seq<Str>) {
    forall i, j :: 0 <= i < j < |l| ==> l[i] != l[j] && LexLeq(l[i], l[j])
  }

  // There is just one such sequence of the same strings.
  lemma {:induction false} RisingUnique(a: seq<Str>, b: seq<Str>)
    requires Rising(a) && Rising(b) && forall x :: x in a <==> x in b
    ensures a == b
  {
    if a == [] {
      if b != [] {
        SomeToo(b, a);
      }
    } else {
      SomeToo(a, b);
      hide LexLeq;
      var n, m := |a| - 1, |b| - 1;
      LastIsGreatest(a, b);
      forall x
        ensures x in a[..n] <==> x in b[..m]
      {
        assert x in a <==> x in a[..n] || x == a[n];
        assert x in b <==> x in b[..m] || x == b[m];
        assert x in a[..n] ==> x != a[n];
        assert x in b[..m] ==> x != b[m];
      }
      RisingUnique(a[..n], b[..m]);
      assert a == a[..n] + [a[n]] && b == b[..m] + [b[m]];
    }
  }

  lemma SomeToo(a: seq<Str>, b: seq<Str>)
    requires a != [] && forall x :: x in a ==> x in b
    ensures b != []
  {
    assert a[0] in a;
  }

  lemma LastIsGreatest(a: seq<Str>, b: seq<Str>)
    requires Rising(a) && Rising(b) && a != [] && b != [] && forall x :: x in a <==> x in b
    ensures a[|a| - 1] == b[|b| - 1]
  {
    hide LexLeq;
    var x, y := a[|a| - 1], b[|b| - 1];
    assert x in a && y in b;
    var i :| 0 <= i < |a| && a[i] == y;
    var j :| 0 <= j < |b| && b[j] == x;
    LexTotal(x, y);
  }

  lemma {:induction false} InsertRising(l: seq<Str>, x: Str) returns (r: seq<Str>)
    requires Rising(l) && x !in l
    ensures Rising(r) && forall y :: y in r <==> y in l || y == x
  {
    hide LexLeq;
    var n := |l| - 1;
    if l == [] || LexLeq(l[n], x) {
      r := l + [x];
      forall i | 0 <= i < |l|
        ensures LexLeq(l[i], x)
      {
        if i < n {
          LexTransitive(l[i], l[n], x);
        }
      }
    } else {
      LexTotal(x, l[n]);
      var s := InsertRising(l[..n], x);
      assert forall y :: y in l <==> y in l[..n] || y == l[n];
      r := s + [l[n]];
      forall i | 0 <= i < |s|
        ensures s[i] != l[n] && LexLeq(s[i], l[n])
      {
        assert s[i] in s;
      }
    }
  }

  // Every set of strings can be put into order.
  lemma {:induction false} RisingExists(s: set<Str>) returns (l: seq<Str>)
    ensures Rising(l) && forall x :: x in l <==> x in s
  {
    if s == {} {
      l := [];
    } else {
      var x :| x in s;
      var rest := RisingExists(s - {x});
      l := InsertRising(rest, x);
    }
  }

  lemma {:induction false} CaseTotal(a: Str, b: Str)
    ensures CaseLeq(a, b) || CaseLeq(b, a)
  {
    if a != [] && b != [] && Lower(a[0]) == Lower(b[0]) {
      CaseTotal(a[1..], b[1..]);
    }
  }

  lemma {:induction false} CaseTransitive(a: Str, b: Str, c: Str)
    requires CaseLeq(a, b) && CaseLeq(b, c)
    ensures CaseLeq(a, c)
  {
    if a != [] && b != [] && Lower(a[0]) == Lower(b[0]) == Lower(c[0]) {
      CaseTransitive(a[1..], b[1..], c[1..]);
    }
  }

  lemma StringsComparable(s: seq<Str>)
    ensures Comparable(s, LexLeq)
  {
    forall x, y
      ensures LexLeq(x, y) || LexLeq(y, x)
    {
      LexTotal(x, y);
    }
    forall x, y, z | LexLeq(x, y) && LexLeq(y, z)
      ensures LexLeq(x, z)
    {
      LexTransitive(x, y, z);
    }
  }

  lemma NamesComparable(s: seq<Str>)
    requires forall x :: x in s ==> x != []
    ensures Comparable(s, NameLeq)
  {
    forall x: Str, y: Str | x in s && y in s
      ensures NameLeq(x, y) || NameLeq(y, x)
    {
      CaseTotal(x[1..], y[1..]);
    }
    forall x: Str, y: Str, z: Str | x in s && y in s && z in s && NameLeq(x, y) && NameLeq(y, z)
      ensures NameLeq(x, z)
    {
      if x[0] == y[0] == z[0] {
        CaseTransitive(x[1..], y[1..], z[1..]);
      }
    }
  }
}
