// Byte strings, big-endian integers and the pieces of a file, as the mandoc
// database writer (userland/mandoc/dba_write.c) lays them out.
module Bytes {

  type Byte = x: int | 0 <= x < 256

  type Str = seq<Byte>

  const INT32_MAX: nat := 0x7fff_ffff

  predicate NoNul(s: Str) {
    forall i :: 0 <= i < |s| ==> s[i] != 0
  }

  /*** integers ********************************************************/

  // The four bytes of a 32-bit integer in network byte order.
  function IntBytes(x: nat): (b: Str)
    ensures |b| == 4
  {
    var x1 := x / 256;
    var x2 := x1 / 256;
    var x3 := x2 / 256;
    [x3 % 256, x2 % 256, x1 % 256, x % 256]
  }

  // The most significant byte comes first.
  lemma BigEndian(x: nat)
    requires x < 0x1_0000_0000
    ensures
      var b: seq<int> := IntBytes(x);
      x == b[0] * 0x100_0000 + b[1] * 0x1_0000 + b[2] * 0x100 + b[3]
  {
    var x1 := x / 256;
    var x2 := x1 / 256;
    assert x == 256 * x1 + x % 256 && x1 == 256 * x2 + x1 % 256 && x2 == 256 * (x2 / 256) + x2 % 256;
  }

  // The signed 32-bit integer stored at offset o.
  function IntAt(f: Str, o: nat): (x: int)
    requires o + 4 <= |f|
    ensures -0x8000_0000 <= x <= INT32_MAX
  {
    var b: seq<int> := f[o..o + 4];
    var u := 256 * (256 * (256 * b[0] + b[1]) + b[2]) + b[3];
    if u > INT32_MAX then u - 0x1_0000_0000 else u
  }

  lemma IntRoundTrip(f: Str, o: nat, x: nat)
    requires x <= INT32_MAX && At(f, o, IntBytes(x))
    ensures IntAt(f, o) == x
  {
    var b := IntBytes(x);
    assert f[o] == b[0] && f[o + 1] == b[1] && f[o + 2] == b[2] && f[o + 3] == b[3];
  }

  function Zeros(n: nat): (s: Str)
    ensures |s| == n
  {
    seq(n, _ => 0)
  }

  // How many bytes are missing to a multiple of four.
  function PadLen(n: nat): (p: nat)
    ensures p < 4 && (n + p) % 4 == 0
  {
    (4 - n % 4) % 4
  }

  /*** pieces of a file ************************************************/

  // The bytes s are found at offset o of the file f.
  ghost predicate At(f: Str, o: nat, s: Str) {
    o + |s| <= |f| && f[o..o + |s|] == s
  }

  lemma AtSplit(f: Str, o: nat, a: Str, b: Str)
    requires At(f, o, a + b)
    ensures At(f, o, a) && At(f, o + |a|, b)
  {
    var s := f[o..o + |a + b|];
    assert f[o..o + |a|] == s[..|a|] == a;
    assert f[o + |a|..o + |a| + |b|] == s[|a|..] == b;
  }

  lemma AtWhole(f: Str)
    ensures At(f, 0, f)
  {
  }

  lemma ConcatAssociative(a: Str, b: Str, c: Str)
    ensures a + b + c == a + (b + c)
  {
  }

  // All pieces, one after the other.
  function Flatten(items: seq<Str>): Str {
    if items == [] then [] else Flatten(items[..|items| - 1]) + items[|items| - 1]
  }

  // The offset of piece i.
  function Offset(items: seq<Str>, i: nat): nat
    requires i <= |items|
  {
    |Flatten(items[..i])|
  }

  lemma {:induction false} FlattenSplit(items: seq<Str>, i: nat)
    requires i < |items|
    ensures Offset(items, i + 1) == Offset(items, i) + |items[i]|
    ensures Offset(items, i + 1) <= |Flatten(items)|
    ensures Flatten(items)[Offset(items, i)..Offset(items, i + 1)] == items[i]
    decreases |items|
  {
    var n := |items| - 1;
    assert items[..i + 1][..i] == items[..i];
    if i < n {
      FlattenSplit(items[..n], i);
      assert items[..n][..i] == items[..i] && items[..n][..i + 1] == items[..i + 1];
    } else {
      assert items[..i + 1] == items;
    }
  }

  lemma FlattenSnoc(items: seq<Str>, item: Str)
    ensures Flatten(items + [item]) == Flatten(items) + item
    ensures forall i :: 0 <= i <= |items| ==> Offset(items + [item], i) == Offset(items, i)
    ensures Offset(items + [item], |items|) == |Flatten(items)|
  {
    assert (items + [item])[..|items|] == items;
    assert forall i :: 0 <= i <= |items| ==> (items + [item])[..i] == items[..i];
  }

  lemma OffsetStart(items: seq<Str>)
    ensures Offset(items, 0) == 0 && Flatten(items[..0]) == []
  {
  }

  lemma OffsetNext(items: seq<Str>, i: nat)
    requires i < |items|
    ensures Offset(items, i) == |Flatten(items[..i])|
    ensures Flatten(items[..i + 1]) == Flatten(items[..i]) + items[i]
  {
    assert items[..i + 1][..i] == items[..i];
  }

  // Each piece is found at its offset.
  lemma AtPiece(f: Str, o: nat, items: seq<Str>, i: nat)
    requires At(f, o, Flatten(items)) && i < |items|
    ensures At(f, o + Offset(items, i), items[i])
    ensures Offset(items, i + 1) == Offset(items, i) + |items[i]| <= |Flatten(items)|
  {
    FlattenSplit(items, i);
    var a, b := Offset(items, i), Offset(items, i + 1);
    var s := f[o..o + |Flatten(items)|];
    assert forall k :: o + a <= k < o + b ==> f[k] == s[k - o];
    assert f[o + a..o + b] == s[a..b];
  }

  lemma {:induction false} FlattenLength(items: seq<Str>, n: nat)
    requires forall i :: 0 <= i < |items| ==> |items[i]| == n
    ensures |Flatten(items)| == |items| * n
  {
    if items != [] {
      var k := |items| - 1;
      FlattenLength(items[..k], n);
      assert (k + 1) * n == k * n + n;
    }
  }

  function Ints(xs: seq<nat>): (b: Str)
    ensures |b| == 4 * |xs|
  {
    if xs == [] then [] else Ints(xs[..|xs| - 1]) + IntBytes(xs[|xs| - 1])
  }

  lemma IntsSnoc(xs: seq<nat>, x: nat)
    ensures Ints(xs + [x]) == Ints(xs) + IntBytes(x)
  {
    assert (xs + [x])[..|xs|] == xs;
  }

  lemma {:induction false} IntsAt(f: Str, o: nat, xs: seq<nat>, i: nat)
    requires At(f, o, Ints(xs)) && i < |xs| && xs[i] <= INT32_MAX
    ensures o + 4 * i + 4 <= |f| && IntAt(f, o + 4 * i) == xs[i]
    decreases |xs|
  {
    var n := |xs| - 1;
    AtSplit(f, o, Ints(xs[..n]), IntBytes(xs[n]));
    if i < n {
      IntsAt(f, o, xs[..n], i);
    } else {
      IntRoundTrip(f, o + 4 * n, xs[n]);
    }
  }

  /*** strings and lists of strings *************************************/

  function StrBytes(s: Str): (b: Str)
    ensures |b| == |s| + 1
  {
    s + [0]
  }

  function StrItems(l: seq<Str>): (items: seq<Str>)
    ensures |items| == |l|
    ensures forall i :: 0 <= i < |l| ==> items[i] == StrBytes(l[i])
  {
    seq(|l|, i requires 0 <= i < |l| => StrBytes(l[i]))
  }

  // Each string of a list ends with a NUL byte, and the list with another.
  function ListBytes(l: seq<Str>): Str {
    Flatten(StrItems(l)) + [0]
  }

  // The first NUL byte at or after o; the end of the file if there is none.
  function StrEnd(f: Str, o: nat): (e: nat)
    requires o <= |f|
    ensures o <= e <= |f|
    ensures forall i :: o <= i < e ==> f[i] != 0
    ensures e < |f| ==> f[e] == 0
    decreases |f| - o
  {
    if o == |f| || f[o] == 0 then o else StrEnd(f, o + 1)
  }

  // The C string at offset o.
  function StrAt(f: Str, o: nat): Str
    requires o <= |f|
  {
    f[o..StrEnd(f, o)]
  }

  lemma StrRoundTrip(f: Str, o: nat, s: Str)
    requires NoNul(s) && At(f, o, StrBytes(s))
    ensures StrAt(f, o) == s && StrEnd(f, o) == o + |s| < |f|
  {
    var b := f[o..o + |s| + 1];
    assert forall i :: o <= i < o + |s| ==> f[i] == b[i - o] == s[i - o];
    assert f[o + |s|] == b[|s|] == 0;
  }

  // Where the string after the one at offset o starts.
  function NextStr(f: Str, o: nat): (n: nat)
    requires o <= |f|
    ensures o < n <= |f| + 1
  {
    StrEnd(f, o) + 1
  }

  predicate ListOk(l: seq<Str>) {
    forall i :: 0 <= i < |l| ==> l[i] != [] && NoNul(l[i])
  }

  // String i of a list at offset o.
  lemma ListItemAt(f: Str, o: nat, l: seq<Str>, i: nat)
    requires ListOk(l) && At(f, o, ListBytes(l)) && i < |l|
    ensures
      var p := o + Offset(StrItems(l), i);
      && p < |f| && StrAt(f, p) == l[i] && f[p] != 0
      && NextStr(f, p) == o + Offset(StrItems(l), i + 1) < |f|
      && Offset(StrItems(l), i + 1) < |ListBytes(l)|
  {
    AtSplit(f, o, Flatten(StrItems(l)), [0]);
    AtPiece(f, o, StrItems(l), i);
    StrRoundTrip(f, o + Offset(StrItems(l), i), l[i]);
  }

  // A list ends with an empty string.
  lemma ListEndAt(f: Str, o: nat, l: seq<Str>)
    requires At(f, o, ListBytes(l))
    ensures
      var p := o + Offset(StrItems(l), |l|);
      p < |f| && f[p] == 0 && p + 1 == o + |ListBytes(l)|
  {
    AtSplit(f, o, Flatten(StrItems(l)), [0]);
    assert StrItems(l)[..|l|] == StrItems(l);
    assert f[o + |Flatten(StrItems(l))|..o + |Flatten(StrItems(l))| + 1] == [0];
  }
}
