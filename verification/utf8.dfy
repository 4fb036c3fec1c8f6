// UTF-8 input and output: preconv_encode() in userland/mandoc/preconv.c and
// utf8() in userland/mandoc/mandocdb.c.
module Utf8 {
  import opened Bytes

  /*** the standard *************************************************************/

  // Behind the end of a buffer, there are NUL bytes.
  function ByteAt(b: Str, i: nat): int {
    if i < |b| then b[i] else 0
  }

  predicate Tail(b: Str, i: nat) {
    0x80 <= ByteAt(b, i) <= 0xBF
  }

  // Section 4 of RFC 3629: the length of the well-formed multi-byte sequence
  // at offset i, or 0 if there is none.
  function SequenceLen(b: Str, i: nat): (n: nat)
    ensures n <= 4
  {
    var c, d := ByteAt(b, i), ByteAt(b, i + 1);
    if 0xC2 <= c <= 0xDF then if Tail(b, i + 1) then 2 else 0
    else if (c == 0xE0 && 0xA0 <= d <= 0xBF) || (0xE1 <= c <= 0xEC && Tail(b, i + 1))
            || (c == 0xED && 0x80 <= d <= 0x9F) || (0xEE <= c <= 0xEF && Tail(b, i + 1)) then
      if Tail(b, i + 2) then 3 else 0
    else if (c == 0xF0 && 0x90 <= d <= 0xBF) || (0xF1 <= c <= 0xF3 && Tail(b, i + 1))
        || (c == 0xF4 && 0x80 <= d <= 0x8F) then
      if Tail(b, i + 2) && Tail(b, i + 3) then 4 else 0
    else 0
  }

  // Section 3 of RFC 3629: the code point encoded by a sequence.
  function CodeAt(b: Str, i: nat): int {
    var c := ByteAt(b, i);
    match SequenceLen(b, i)
    case 2 => (c - 0xC0) * 64 + (ByteAt(b, i + 1) - 0x80)
    case 3 => (c - 0xE0) * 4096 + (ByteAt(b, i + 1) - 0x80) * 64 + (ByteAt(b, i + 2) - 0x80)
    case 4 => (c - 0xF0) * 262144 + (ByteAt(b, i + 1) - 0x80) * 4096 + (ByteAt(b, i + 2) - 0x80) * 64
        + (ByteAt(b, i + 3) - 0x80)
    case _ => 0
  }

  predicate Scalar(cp: int) {
    0 <= cp <= 0x10FFFF && !(0xD800 <= cp <= 0xDFFF)
  }

  // Well-formed sequences encode scalar values that are not ASCII.
  lemma CodeIsScalar(b: Str, i: nat)
    requires SequenceLen(b, i) > 0
    ensures Scalar(CodeAt(b, i)) && CodeAt(b, i) > 0x7F
  {
  }

  /*** encoding ******************************************************************/

  // utf8(): the bytes for a code point, as many as it needs.
  function Utf8(cp: nat): (r: Str)
  {
    if cp <= 0x7F then [cp]
    else if cp <= 0x7FF then [cp / 64 % 32 + 192, cp % 64 + 128]
    else if cp <= 0xFFFF then [cp / 4096 % 16 + 224, cp / 64 % 64 + 128, cp % 64 + 128]
    else if cp <= 0x1FFFFF then
      [cp / 262144 % 8 + 240, cp / 4096 % 64 + 128, cp / 64 % 64 + 128, cp % 64 + 128]
    else if cp <= 0x3FFFFFF then
      [cp / 0x1000000 % 4 + 248, cp / 262144 % 64 + 128, cp / 4096 % 64 + 128, cp / 64 % 64 + 128, cp % 64 + 128]
    else if cp <= 0x7FFFFFFF then
      [cp / 0x40000000 % 2 + 252, cp / 0x1000000 % 64 + 128, cp / 262144 % 64 + 128, cp / 4096 % 64 + 128,
          cp / 64 % 64 + 128,
       cp % 64 + 128]
    else []
  }

  lemma Split64(n: nat)
    ensures n == n / 64 * 64 + n % 64
  {
  }

  lemma DivideTwice(n: nat)
    ensures n / 4096 == n / 64 / 64 && n / 262144 == n / 64 / 64 / 64
  {
  }

  lemma EncodesTwo(cp: nat, b: Str)
    requires 0x7F < cp <= 0x7FF && Utf8(cp) <= b
    ensures SequenceLen(b, 0) == 2 && CodeAt(b, 0) == cp
  {
    Split64(cp);
    assert Utf8(cp) == [cp / 64 % 32 + 192, cp % 64 + 128];
    assert b[0] == Utf8(cp)[0] && b[1] == Utf8(cp)[1];
  }

  lemma EncodesThree(cp: nat, b: Str)
    requires 0x7FF < cp <= 0xFFFF && Scalar(cp) && Utf8(cp) <= b
    ensures SequenceLen(b, 0) == 3 && CodeAt(b, 0) == cp
  {
    DivideTwice(cp);
    Split64(cp);
    Split64(cp / 64);
    var r := Utf8(cp);
    assert r == [cp / 4096 % 16 + 224, cp / 64 % 64 + 128, cp % 64 + 128];
    assert b[0] == r[0] && b[1] == r[1] && b[2] == r[2];
  }

  lemma EncodesFour(cp: nat, b: Str)
    requires 0xFFFF < cp <= 0x10FFFF && Utf8(cp) <= b
    ensures SequenceLen(b, 0) == 4 && CodeAt(b, 0) == cp
  {
    DivideTwice(cp);
    Split64(cp);
    Split64(cp / 64);
    Split64(cp / 64 / 64);
    var r := Utf8(cp);
    assert r == [cp / 262144 % 8 + 240, cp / 4096 % 64 + 128, cp / 64 % 64 + 128, cp % 64 + 128];
    assert b[0] == r[0] && b[1] == r[1] && b[2] == r[2] && b[3] == r[3];
  }

  // The encoding of a scalar value is a well-formed sequence for it.
  lemma EncodesScalar(cp: nat, rest: Str)
    requires Scalar(cp) && cp > 0x7F
    ensures SequenceLen(Utf8(cp) + rest, 0) == |Utf8(cp)| && CodeAt(Utf8(cp) + rest, 0) == cp
  {
    hide SequenceLen, CodeAt;
    if cp <= 0x7FF {
      EncodesTwo(cp, Utf8(cp) + rest);
    } else if cp <= 0xFFFF {
      EncodesThree(cp, Utf8(cp) + rest);
    } else {
      EncodesFour(cp, Utf8(cp) + rest);
    }
  }

  lemma Digits64(x: nat, y: nat)
    requires y < 64
    ensures (x * 64 + y) / 64 == x && (x * 64 + y) % 64 == y
  {
  }

  lemma TwoUnique(x: nat, y: nat)
    requires 2 <= x < 32 && y < 64
    ensures Utf8(x * 64 + y) == [x + 0xC0, y + 0x80]
  {
    Digits64(x, y);
  }

  lemma ThreeUnique(x: nat, y: nat, z: nat)
    requires x < 16 && y < 64 && z < 64 && (x > 0 || y >= 32)
    ensures Utf8(x * 4096 + y * 64 + z) == [x + 0xE0, y + 0x80, z + 0x80]
  {
    DivideTwice(x * 4096 + y * 64 + z);
    Digits64(x, y);
    Digits64(x * 64 + y, z);
  }

  lemma FourUnique(x: nat, y: nat, z: nat, w: nat)
    requires x < 8 && y < 64 && z < 64 && w < 64 && (x > 0 || y >= 16)
    ensures Utf8(x * 262144 + y * 4096 + z * 64 + w) == [x + 0xF0, y + 0x80, z + 0x80, w + 0x80]
  {
    DivideTwice(x * 262144 + y * 4096 + z * 64 + w);
    Digits64(x, y);
    Digits64(x * 64 + y, z);
    Digits64(x * 4096 + y * 64 + z, w);
  }

  // The other way round, a well-formed sequence is the encoding of its value.
  lemma DecodesUnique(b: Str, i: nat)
    requires SequenceLen(b, i) > 0
    ensures i + SequenceLen(b, i) <= |b| && Utf8(CodeAt(b, i)) == b[i..i + SequenceLen(b, i)]
  {
    hide Utf8;
    var n := SequenceLen(b, i);
    assert ByteAt(b, i + n - 1) != 0;
    var c, y := ByteAt(b, i), ByteAt(b, i + 1) - 0x80;
    if n == 2 {
      TwoUnique(c - 0xC0, y);
    } else if n == 3 {
      ThreeUnique(c - 0xE0, y, ByteAt(b, i + 2) - 0x80);
    } else {
      FourUnique(c - 0xF0, y, ByteAt(b, i + 2) - 0x80, ByteAt(b, i + 3) - 0x80);
    }
  }

  /*** hexadecimal numbers *******************************************************/

  function HexDigit(d: nat): char
    requires d < 16
  {
    if d < 10 then (48 + d) as char else (55 + d) as char
  }

  function DigitValue(c: char): int {
    if '0' <= c <= '9' then c as int - 48
    else if 'A' <= c <= 'F' then c as int - 55
    else if 'a' <= c <= 'f' then c as int - 87
    else -1
  }

  predicate IsHex(s: string) {
    forall i :: 0 <= i < |s| ==> 0 <= DigitValue(s[i])
  }

  // At least w digits.
  function HexText(n: nat, w: nat): string {
    if n < 16 && w <= 1 then [HexDigit(n)]
    else HexText(n / 16, if w == 0 then 0 else w - 1) + [HexDigit(n % 16)]
  }

  function HexValue(s: string): int {
    if s == [] then 0 else HexValue(s[..|s| - 1]) * 16 + DigitValue(s[|s| - 1])
  }

  // Reading the digits back gives the number.
  lemma {:induction false} HexRoundTrip(n: nat, w: nat)
    ensures IsHex(HexText(n, w)) && HexValue(HexText(n, w)) == n
    decreases n, w
  {
    DigitRoundTrip(n % 16);
    hide DigitValue, HexDigit;
    if n < 16 && w <= 1 {
      assert HexValue([]) == 0;
    } else {
      HexRoundTrip(n / 16, if w == 0 then 0 else w - 1);
      HexSnoc(HexText(n / 16, if w == 0 then 0 else w - 1), HexDigit(n % 16));
    }
  }

  lemma DigitRoundTrip(d: nat)
    requires d < 16
    ensures DigitValue(HexDigit(d)) == d
  {
  }

  lemma HexSnoc(s: string, c: char)
    ensures HexValue(s + [c]) == HexValue(s) * 16 + DigitValue(c)
    ensures IsHex(s + [c]) <==> IsHex(s) && 0 <= DigitValue(c)
  {
    assert (s + [c])[..|s|] == s;
    assert forall i :: 0 <= i < |s| ==> (s + [c])[i] == s[i];
    assert (s + [c])[|s|] == c;
  }

  // The number of digits of a code point.
  lemma HexLength(n: nat)
    requires n <= 0x10FFFF
    ensures |HexText(n, 4)| == if n < 0x10000 then 4 else if n < 0x100000 then 5 else 6
  {
    var a, b, c := n / 16, n / 16 / 16, n / 16 / 16 / 16;
    var d := c / 16;
    var e := d / 16;
    assert HexText(n, 4) == HexText(a, 3) + [HexDigit(n % 16)];
    assert HexText(a, 3) == HexText(b, 2) + [HexDigit(a % 16)];
    assert HexText(b, 2) == HexText(c, 1) + [HexDigit(b % 16)];
    if c >= 16 {
      assert HexText(c, 1) == HexText(d, 0) + [HexDigit(c % 16)];
      if d >= 16 {
        assert HexText(d, 0) == HexText(e, 0) + [HexDigit(d % 16)];
      }
    }
  }

  // What is written for a character: \[uXXXX].
  function Escaped(cp: nat): string {
    "\\[u" + HexText(cp, 4) + "]"
  }

  /*** preconv_encode() **********************************************************/

  // The number of leading one bits of a byte, up to 5.
  method HeaderLength(c: Byte) returns (nby: nat)
    requires c >= 0x80
    ensures nby == if c < 0xC0 then 1 else if c < 0xE0 then 2 else if c < 0xF0 then 3 else if c < 0xF8 then 4 else 5
  {
    var bit := 64;
    nby := 1;
    while nby < 5 && c / bit % 2 == 1
      invariant 1 <= nby <= 5 && bit == (if nby == 1 then 64 else if nby == 2 then 32 else if nby == 3 then 16
                else if nby == 4 then 8 else 4)
      invariant nby >= 2 ==> c >= 0xC0
      invariant nby >= 3 ==> c >= 0xE0
      invariant nby >= 4 ==> c >= 0xF0
      invariant nby >= 5 ==> c >= 0xF8
    {
      nby := nby + 1;
      bit := bit / 2;
    }
  }

  // n continuation bytes from offset i on, and the value they make behind a
  // start value.
  predicate Tails(b: Str, i: nat, n: nat) {
    n == 0 || (Tails(b, i, n - 1) && Tail(b, i + n - 1))
  }

  function Accumulate(b: Str, i: nat, accum: nat, n: nat): nat {
    if n == 0 then accum else Accumulate(b, i, accum, n - 1) * 64 + ByteAt(b, i + n - 1) % 64
  }

  lemma {:induction false} NotTails(b: Str, i: nat, n: nat, k: nat)
    requires k < n && !Tail(b, i + k)
    ensures !Tails(b, i, n)
  {
    if k < n - 1 {
      NotTails(b, i, n - 1, k);
    }
  }

  // Read n continuation bytes.
  method Continue(b: Str, i: nat, start: nat, n: nat) returns (ok: bool, accum: nat, cu: nat)
    ensures ok <==> Tails(b, i, n)
    ensures ok ==> cu == i + n && accum == Accumulate(b, i, start, n)
  {
    accum, cu := start, i;
    var nby: nat := n;
    while nby > 0
      invariant nby <= n && cu == i + (n - nby) && Tails(b, i, n - nby)
      invariant accum == Accumulate(b, i, start, n - nby)
    {
      if ByteAt(b, cu) / 64 != 2 {
        NotTails(b, i, n, n - nby);
        return false, accum, cu;
      }
      accum := accum * 64 + ByteAt(b, cu) % 64;
      cu := cu + 1;
      nby := nby - 1;
    }
    ok := true;
  }

  lemma Combined(b: Str, i: nat, a: nat)
    ensures Tails(b, i, 1) <==> Tail(b, i)
    ensures Tails(b, i, 2) <==> Tail(b, i) && Tail(b, i + 1)
    ensures Tails(b, i, 3) <==> Tail(b, i) && Tail(b, i + 1) && Tail(b, i + 2)
    ensures Tails(b, i, 1) ==> Accumulate(b, i, a, 1) == a * 64 + (ByteAt(b, i) - 0x80)
    ensures Tails(b, i, 2) ==>
              Accumulate(b, i, a, 2) == a * 4096 + (ByteAt(b, i) - 0x80) * 64 + (ByteAt(b, i + 1) - 0x80)
    ensures Tails(b, i, 3) ==>
              Accumulate(b, i, a, 3)
              == a * 262144 + (ByteAt(b, i) - 0x80) * 4096 + (ByteAt(b, i + 1) - 0x80) * 64 + (ByteAt(b, i + 2) - 0x80)
  {
    assert Tails(b, i, 0) && Accumulate(b, i, a, 0) == a;
    assert Tails(b, i, 1) == Tail(b, i);
    assert Tails(b, i, 2) == (Tails(b, i, 1) && Tail(b, i + 1));
    assert Tails(b, i, 3) == (Tails(b, i, 2) && Tail(b, i + 2));
    assert Accumulate(b, i, a, 1) == a * 64 + ByteAt(b, i) % 64;
    assert Accumulate(b, i, a, 2) == Accumulate(b, i, a, 1) * 64 + ByteAt(b, i + 1) % 64;
    assert Accumulate(b, i, a, 3) == Accumulate(b, i, a, 2) * 64 + ByteAt(b, i + 2) % 64;
    hide Accumulate, Tails;
    assert forall k: nat :: Tail(b, k) ==> ByteAt(b, k) % 64 == ByteAt(b, k) - 0x80;
  }

  // Check the first two bytes of a sequence of nby bytes; nby is 0 if they
  // cannot start a sequence.
  method Header(b: Str, i: nat) returns (nby: nat, accum: nat)
    requires ByteAt(b, i) >= 0x80
    ensures nby == 0 || 2 <= nby <= 4
    ensures nby == 0 ==> SequenceLen(b, i) == 0
    ensures nby > 0 ==> SequenceLen(b, i) == if Tails(b, i + 1, nby - 1) then nby else 0
    ensures nby > 0 ==> ByteAt(b, i) == accum + if nby == 2 then 0xC0 else if nby == 3 then 0xE0 else 0xF0
  {
    hide Tails;
    Combined(b, i + 1, 0);
    accum := 0;
    var c := ByteAt(b, i);
    nby := HeaderLength(c);
    if nby == 2 {
      accum := c % 32;
      if accum < 2 {
        nby := 0;
      }
    } else if nby == 3 {
      accum := c % 16;
    } else if nby == 4 {
      accum := c % 8;
      if accum > 4 {
        nby := 0;
      }
    } else {
      nby := 0;
    }
    var d := ByteAt(b, i + 1);
    if nby == 3 {
      if (accum == 0 && d / 32 % 2 == 0) || (accum == 13 && d / 32 % 2 == 1) {
        nby := 0;
      }
    } else if nby == 4 {
      if (accum == 0 && d / 16 % 4 == 0) || (accum == 4 && d / 16 % 4 != 0) {
        nby := 0;
      }
    }
  }

  // Decode the sequence at offset i; fail if it is not well-formed.
  method Decode(b: Str, i: nat) returns (ok: bool, accum: nat, next: nat)
    requires ByteAt(b, i) >= 0x80
    ensures ok <==> SequenceLen(b, i) > 0
    ensures ok ==> accum == CodeAt(b, i) && next == i + SequenceLen(b, i)
  {
    hide Tails, Accumulate, SequenceLen;
    var nby, start := Header(b, i);
    if nby == 0 {
      return false, 0, i;
    }
    Combined(b, i + 1, start);
    ok, accum, next := Continue(b, i + 1, start, nby - 1);
  }

  // Which encodings the file may have.
  datatype Encodings = Encodings(utf8: bool, latin1: bool)

  // Convert the character at offset ii; fail if that is not possible in any
  // encoding that the file may have.
  method Encode(b: Str, ii: nat, filenc: Encodings) returns (ok: bool, next: nat, text: string, filenc': Encodings)
    requires ByteAt(b, ii) >= 0x80
    ensures
      var n := SequenceLen(b, ii);
      if filenc.utf8 && n > 0 then
        ok && next == ii + n && text == Escaped(CodeAt(b, ii)) && filenc' == filenc.(latin1 := false)
      else if filenc.latin1 then
        ok && next == ii + 1 && text == Escaped(b[ii]) && filenc' == filenc.(utf8 := false)
      else !ok && next == ii && text == [] && filenc' == filenc
    ensures |text| <= 10
  {
    if filenc.utf8 {
      var good, accum, cu := Decode(b, ii);
      if good {
        CodeIsScalar(b, ii);
        HexLength(accum);
        return true, cu, Escaped(accum), filenc.(latin1 := false);
      }
    }
    if !filenc.latin1 {
      return false, ii, [], filenc;
    }
    HexLength(b[ii]);
    return true, ii + 1, Escaped(b[ii]), filenc.(utf8 := false);
  }
}
