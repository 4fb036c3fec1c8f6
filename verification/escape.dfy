// Scanning roff(7) escape sequences: mandoc_escape() and mandoc_font() in
// userland/mandoc/mandoc.c.
module Escape {
  import opened Utf8

  datatype Esc =
    | Error | Unsupp | Ignore | Undef | Special
    | Font | FontBold | FontItalic | FontBI | FontRoman | FontCR | FontCB | FontCI | FontPrev
    | Numbered | Unicode | Device | Break | NoSpace | Horiz | HLine | SkipChar | Overstrike

  const ASCII_HYPH: char := '\U{1E}'

  // A string ends with a NUL character.
  function At(s: string, i: nat): char {
    if i < |s| then s[i] else '\0'
  }

  predicate IsDigit(c: char) {
    '0' <= c <= '9'
  }

  // Where the digits at position i end.
  function Digits(s: string, i: nat): (e: nat)
    requires i <= |s|
    ensures i <= e <= |s|
    decreases |s| - i
  {
    if i < |s| && IsDigit(s[i]) then Digits(s, i + 1) else i
  }

  // mandoc_font()
  function FontOf(a: string): Esc {
    if |a| == 0 then FontPrev
    else if |a| == 1 then
      match a[0]
      case 'B' => FontBold
      case '3' => FontBold
      case 'I' => FontItalic
      case '2' => FontItalic
      case 'P' => FontPrev
      case 'R' => FontRoman
      case '1' => FontRoman
      case '4' => FontBI
      case _ => Error
    else if |a| == 2 && a[0] == 'B' then (if a[1] == 'I' then FontBI else Error)
    else if |a| == 2 && a[0] == 'C' then
      match a[1]
      case 'B' => FontCB
      case 'I' => FontCI
      case 'R' => FontCR
      case 'W' => FontCR
      case _ => Error
    else Error
  }

  /*** the start of an escape sequence ******************************************/

  // Either the sequence ends here, or an argument follows at start: sz
  // characters, or everything up to the character term if that is not NUL.
  datatype Head =
    | Done(esc: Esc, start: nat, sz: nat, end: nat)
    | Arg(gly: Esc, start: nat, sz: nat, term: char)

  const NUMERIC: string := " %&()*+-./0123456789:<=>"

  // What the character c in front of position p introduces.
  function HeadAt(s: string, p: nat, c: char): (h: Head)
    requires 0 < p <= |s| && s[p - 1] == c
  {
    var d := At(s, p);
    if c == '(' then Arg(Special, p, 2, '\0')
    else if c == '[' then
      if d == ' ' then Done(Error, p, 0, p + 1) else Arg(Special, p, 0, ']')
    else if c == 'C' then
      if d != '\'' then Done(Error, p, 0, p) else Arg(Special, p + 1, 0, '\'')
    else if c in "!?" then Done(Unsupp, p, 0, p)
    else if c in "%&),/^adrtu{|}" then Done(Ignore, p, 0, p)
    else if c == 'c' then Done(NoSpace, p, 0, p)
    else if c == 'p' then Done(Break, p, 0, p)
    else if c == 'z' then Done(SkipChar, p, 0, p)
    else if c in "FfgkMmnOVY*" then
      var gly := if c == 'f' then Font else if c == '*' then Device else Ignore;
      if d == '(' then Arg(if c == 'O' then Error else gly, p + 1, 2, '\0')
      else if d == '[' then
        Arg(if c == 'O' then (if At(s, p + 1) == '5' then Unsupp else Error) else gly, p + 1, 0, ']')
      else
        Arg(if c == 'O' then (if d == '0' then Unsupp else if d in "1234" then gly else Error) else gly, p, 1, '\0')
    else if c in "AbDRXZo" then
      if d == '\0' then Done(Error, p, 0, p) else Arg(if c == 'o' then Overstrike else Ignore, p + 1, 0, d)
    else if c in "hHLlSvx" then
      if d == '\0' then Done(Error, p, 0, p)
      else if d in NUMERIC then Done(Error, p, 0, p + 1)
      else Arg(if c == 'h' then Horiz else if c == 'l' then HLine else Ignore, p + 1, 0, d)
    else if c == 'N' then
      if d == '\0' then Done(Error, p, 0, p)
      else if IsDigit(d) then Done(Ignore, p, 1, p + 1)
      else
        var e := Digits(s, p + 1);
        Done(Numbered, p + 1, e - (p + 1), if e < |s| then e + 1 else e)
    else if c == 's' then SizeAt(s, if d in ['+', '-', ASCII_HYPH] then p + 1 else p)
    else Arg(if c in " '-.0:_`e~" then Special else Undef, p - 1, 1, '\0')
  }

  // The argument of a size escape, behind its sign.
  function SizeAt(s: string, p: nat): Head
    requires 0 < p <= |s|
  {
    var d := At(s, p);
    if d == '(' then Arg(Ignore, p + 1, 2, '\0')
    else if d == '[' then Arg(Ignore, p + 1, 0, ']')
    else if d == '\'' then Arg(Ignore, p + 1, 0, '\'')
    else if d in "321" then Arg(Ignore, p, if s[p - 1] == 's' && IsDigit(At(s, p + 1)) then 2 else 1, '\0')
    else Arg(Ignore, p, 1, '\0')
  }

  // Positions stay inside of the string.
  lemma HeadInside(s: string, p: nat)
    requires 0 < p <= |s| && '\0' !in s
    ensures
      match HeadAt(s, p, s[p - 1])
      case Done(esc, start, sz, end) => p <= start && start + sz <= end <= |s|
      case Arg(gly, start, sz, term) =>
            p - 1 <= start <= |s| && (if term == '\0' then 0 < sz <= 2 else p <= start && sz == 0)
  {
  }

  /*** the whole sequence ********************************************************/

  // What mandoc_escape() returns, with the argument and the position behind
  // the sequence; or the assertion about device names fails.
  datatype Result = Result(esc: Esc, start: nat, sz: nat, end: nat) | Abort

  // Looking for a terminating character.
  datatype Scan = Found(at: nat) | Failed(at: nat) | Aborted

  // The sequence at position e, behind the backslash.
  function EscapeAt(s: string, e: nat): (r: Result)
    requires e <= |s| && '\0' !in s
    ensures r.Result? ==> e <= r.end <= |s|
    ensures r.Result? && r.esc != Error ==> e < r.end && r.start + r.sz <= r.end
    decreases |s| - e, 1
  {
    var i := if At(s, e) == 'E' then e + 1 else e;
    if i == |s| then Result(Error, i, 1, i)
    else
      HeadInside(s, i + 1);
      match HeadAt(s, i + 1, s[i])
      case Done(esc, start, sz, end) => Result(esc, start, sz, end)
      case Arg(gly, start, sz, term) =>
        if term == '\0' then
          if sz > |s| - start then Result(Error, start, sz, start) else Process(s, gly, start, sz, start + sz)
        else
          match ScanFor(s, start, term)
          case Aborted => Abort
          case Failed(at) => Result(Error, start, 0, at)
          case Found(at) =>
            if gly == Special && at - start == 1 && s[start] != '-' then Result(Error, start, 1, at + 1)
            else Process(s, gly, start, at - start, at + 1)
  }

  // The next character term that is not part of a nested sequence.
  function ScanFor(s: string, p: nat, term: char): (r: Scan)
    requires p <= |s| && '\0' !in s && term != '\0'
    ensures r.Found? ==> p <= r.at < |s| && s[r.at] == term
    ensures r.Failed? ==> p <= r.at <= |s|
    decreases |s| - p, 0
  {
    if At(s, p) == term then Found(p)
    else if p == |s| then Failed(p)
    else if s[p] == '\\' then
      var r := EscapeAt(s, p + 1);
      if r.Abort? then Aborted
      else if r.esc == Error then Failed(r.end)
      else ScanFor(s, r.end, term)
    else ScanFor(s, p + 1, term)
  }

  // Evaluate the argument.
  function Process(s: string, gly: Esc, start: nat, sz: nat, end: nat): (r: Result)
    requires start + sz <= end <= |s|
    ensures r.Result? ==> r.end == end && start <= r.start && r.start + r.sz == start + sz
  {
    var a := s[start..start + sz];
    if gly == Font then Result(FontOf(a), start, sz, end)
    else if gly == Device then
      if a == ".T" then Result(Device, start, sz, end) else Abort
    else if gly != Special then Result(gly, start, sz, end)
    else if At(s, start) == 'c' then
      if CharNumber(a) then Result(Numbered, start + 4, sz - 4, end) else Result(Special, start, sz, end)
    else Result(if CodePoint(a) then Unicode else Special, start, sz, end)
  }

  function Decimal(a: string): int {
    if a == [] then 0 else Decimal(a[..|a| - 1]) * 10 + (a[|a| - 1] as int - 48)
  }

  // A character number that can be printed: \\[charN].
  predicate CharNumber(a: string) {
    && 6 <= |a| <= 7 && a[..4] == "char" && (forall i :: 4 <= i < |a| ==> IsDigit(a[i]))
    && var c := Decimal(a[4..]); (0x21 <= c <= 0x7E || 0xA0 <= c <= 0xFF)
  }

  predicate HighDigit(c: char) {
    c == '8' || c == '9' || 'A' <= c <= 'F'
  }

  // A Unicode code point, as far as mandoc_escape() checks it: \\[uXXXX].
  predicate CodePoint(a: string) {
    && 5 <= |a| <= 7 && a[0] == 'u'
    && !(|a| == 7 && (a[1] != '1' || a[2] != '0'))
    && !(|a| == 6 && a[1] == '0')
    && !(|a| == 5 && a[1] == 'D' && HighDigit(a[2]))
    && IsHex(a[1..])
  }

  // mandoc_escape()
  method ReadEscape(s: string, e: nat) returns (r: Result)
    requires e <= |s| && '\0' !in s
    ensures r == EscapeAt(s, e)
    decreases |s| - e
  {
    hide Process, HeadAt, ScanFor;
    var i := e;
    if At(s, i) == 'E' {
      i := i + 1;
    }
    if i == |s| {
      return Result(Error, i, 1, i);
    }
    HeadInside(s, i + 1);
    var h := HeadAt(s, i + 1, s[i]);
    if h.Done? {
      return Result(h.esc, h.start, h.sz, h.end);
    }
    var end := h.start;
    if h.term == '\0' {
      if h.sz > |s| - h.start {
        return Result(Error, h.start, h.sz, end);
      }
      return Process(s, h.gly, h.start, h.sz, end + h.sz);
    }
    var scan := FindTerm(s, end, h.term);
    if scan.Aborted? {
      return Abort;
    }
    end := scan.at;
    if scan.Failed? {
      return Result(Error, h.start, 0, end);
    }
    var sz := end - h.start;
    end := end + 1;
    if h.gly == Special && sz == 1 && s[h.start] != '-' {
      return Result(Error, h.start, sz, end);
    }
    r := Process(s, h.gly, h.start, sz, end);
  }

  // Look for the end of an argument, with other sequences in it.
  method FindTerm(s: string, start: nat, term: char) returns (r: Scan)
    requires start <= |s| && '\0' !in s && term != '\0'
    ensures r == ScanFor(s, start, term)
    decreases |s| - start
  {
    hide EscapeAt;
    var end := start;
    while At(s, end) != term
      invariant start <= end <= |s| && ScanFor(s, start, term) == ScanFor(s, end, term)
      decreases |s| - end
    {
      if end == |s| {
        return Failed(end);
      } else if s[end] == '\\' {
        var nested := ReadEscape(s, end + 1);
        if nested.Abort? {
          return Aborted;
        } else if nested.esc == Error {
          return Failed(nested.end);
        }
        end := nested.end;
      } else {
        end := end + 1;
      }
    }
    r := Found(end);
  }

  /*** code points ***************************************************************/

  // mchars_num2uc()
  function Num2uc(a: string): int {
    HexValue(a)
  }

  lemma {:induction false} HexBelow(a: string)
    requires IsHex(a)
    ensures 0 <= HexValue(a)
    ensures |a| <= 5 ==> HexValue(a) <= 0xFFFFF
    ensures |a| <= 4 ==> HexValue(a) <= 0xFFFF
    ensures |a| <= 3 ==> HexValue(a) <= 0xFFF
    ensures |a| <= 2 ==> HexValue(a) <= 0xFF
    ensures |a| <= 1 ==> HexValue(a) <= 0xF
    ensures a == [] ==> HexValue(a) == 0
  {
    if a != [] {
      HexBelow(a[..|a| - 1]);
    }
  }

  lemma HexNone()
    ensures HexValue([]) == 0
  {
  }

  // The value of some digits behind others.
  lemma {:induction false} HexConcat(a: string, b: string)
    requires |b| == 4
    ensures HexValue(a + b) == HexValue(a) * 0x10000 + HexValue(b)
  {
    hide HexValue, DigitValue;
    HexNone();
    HexSnoc(a, b[0]);
    HexSnoc(a + [b[0]], b[1]);
    HexSnoc(a + [b[0]] + [b[1]], b[2]);
    HexSnoc(a + [b[0]] + [b[1]] + [b[2]], b[3]);
    HexSnoc([], b[0]);
    HexSnoc([] + [b[0]], b[1]);
    HexSnoc([] + [b[0]] + [b[1]], b[2]);
    HexSnoc([] + [b[0]] + [b[1]] + [b[2]], b[3]);
    assert b == [] + [b[0]] + [b[1]] + [b[2]] + [b[3]];
    assert a + b == a + [b[0]] + [b[1]] + [b[2]] + [b[3]];
  }

  // A code point that passes the check is in the range that mchars_num2uc()
  // asserts.
  lemma CodePointInRange(a: string)
    requires CodePoint(a)
    ensures 0 <= Num2uc(a[1..]) <= 0x10FFFF
  {
    hide HexValue;
    HexNone();
    var d := a[1..];
    HexBelow(d);
    if |d| == 6 {
      HexConcat(d[..2], d[2..]);
      assert d == d[..2] + d[2..];
      HexBelow(d[2..]);
      assert d[..2] == [a[1], a[2]];
      HexSnoc([a[1]], a[2]);
      HexSnoc([], a[1]);
      assert [] + [a[1]] == [a[1]] && [a[1]] + [a[2]] == d[..2];
      }
  }

  // It is a surrogate exactly if the first of four digits is d, and the
  // second one, 8 to f, except when both are upper case or digits: the check
  // overlooks surrogates written with lower case letters.
  lemma SurrogatesLeft(a: string)
    requires CodePoint(a)
    ensures 0xD800 <= Num2uc(a[1..]) <= 0xDFFF <==>
              |a| == 5 && ((a[1] == 'd' && (HighDigit(a[2]) || 'a' <= a[2] <= 'f'))
                  || (a[1] == 'D' && 'a' <= a[2] <= 'f'))
  {
    hide HexValue;
    HexNone();
    var d := a[1..];
    HexBelow(d);
    assert d[0] == a[1] && d[1] == a[2];
    if |d| == 4 {
      TwoOfFour(d);
      SurrogateDigits(a[1], a[2]);
    } else {
      var k := |d| - 4;
      HexConcat(d[..k], d[k..]);
      assert d == d[..k] + d[k..];
      HexBelow(d[k..]);
      if k == 1 {
        OneDigit(d[..1]);
        OnlyOneZero(d[0]);
      } else {
        TwoDigits(d[..2]);
        OnlyOneZero(d[0]);
      }
    }
  }

  lemma SurrogateDigits(a: char, b: char)
    requires 0 <= DigitValue(a) && 0 <= DigitValue(b)
    ensures 0xD8 <= DigitValue(a) * 16 + DigitValue(b) <= 0xDF <==>
              (a == 'D' || a == 'd') && (HighDigit(b) || 'a' <= b <= 'f')
  {
    assert DigitValue(a) == 13 <==> a == 'D' || a == 'd';
    assert DigitValue(b) >= 8 <==> HighDigit(b) || 'a' <= b <= 'f';
    assert DigitValue(b) <= 15;
  }

  lemma TwoOfFour(d: string)
    requires |d| == 4 && IsHex(d)
    ensures HexValue(d) == (DigitValue(d[0]) * 16 + DigitValue(d[1])) * 256 + HexValue(d[2..])
    ensures 0 <= HexValue(d[2..]) <= 255
  {
    hide HexValue, DigitValue;
    HexNone();
    HexSnoc([], d[0]);
    HexSnoc([] + [d[0]], d[1]);
    HexSnoc([] + [d[0]] + [d[1]], d[2]);
    HexSnoc([] + [d[0]] + [d[1]] + [d[2]], d[3]);
    HexSnoc([], d[2]);
    HexSnoc([] + [d[2]], d[3]);
    assert d == [] + [d[0]] + [d[1]] + [d[2]] + [d[3]] && d[2..] == [] + [d[2]] + [d[3]];
    HexBelow(d[2..]);
  }

  // A Unicode result always gives a code point in range.
  lemma UnicodeInRange(s: string, e: nat)
    requires e <= |s| && '\0' !in s && EscapeAt(s, e).Result? && EscapeAt(s, e).esc == Unicode
    ensures
      var r := EscapeAt(s, e);
      && r.sz >= 5 && r.start + r.sz <= |s| && CodePoint(s[r.start..r.start + r.sz])
      && 0 <= Num2uc(s[r.start + 1..r.start + r.sz]) <= 0x10FFFF
  {
    hide CodePoint, CharNumber, FontOf, Num2uc, EscapeAt, IsHex;
    var r := EscapeAt(s, e);
    var a := s[r.start..r.start + r.sz];
    OnlyCodePoints(s, e);
    LongCode(a);
    assert a[1..] == s[r.start + 1..r.start + r.sz];
    CodePointInRange(a);
  }

  lemma LongCode(a: string)
    requires CodePoint(a)
    ensures |a| >= 5
  {
  }

  lemma HeadPlain(s: string, p: nat, c: char)
    requires 0 < p <= |s| && s[p - 1] == c
    ensures
      match HeadAt(s, p, c)
      case Done(esc, _, _, _) => esc != Unicode
      case Arg(gly, _, _, _) => gly != Unicode
  {
  }

  lemma ProcessUnicode(s: string, gly: Esc, start: nat, sz: nat, end: nat)
    requires start + sz <= end <= |s| && gly != Unicode
    requires Process(s, gly, start, sz, end).Result? && Process(s, gly, start, sz, end).esc == Unicode
    ensures Process(s, gly, start, sz, end) == Result(Unicode, start, sz, end) && CodePoint(s[start..start + sz])
  {
    hide CodePoint, CharNumber;
  }

  lemma OnlyCodePoints(s: string, e: nat)
    requires e <= |s| && '\0' !in s && EscapeAt(s, e).Result? && EscapeAt(s, e).esc == Unicode
    ensures
      var r := EscapeAt(s, e);
      r.start + r.sz <= |s| && CodePoint(s[r.start..r.start + r.sz])
  {
    hide CodePoint, CharNumber, HeadAt, Process, ScanFor;
    var i := if At(s, e) == 'E' then e + 1 else e;
    HeadInside(s, i + 1);
    HeadPlain(s, i + 1, s[i]);
    var h := HeadAt(s, i + 1, s[i]);
    if h.Arg? {
      if h.term == '\0' {
        ProcessUnicode(s, h.gly, h.start, h.sz, h.start + h.sz);
      } else {
        var at := ScanFor(s, h.start, h.term).at;
        ProcessUnicode(s, h.gly, h.start, at - h.start, at + 1);
      }
    }
  }

  /*** device names **************************************************************/

  // The character that says what the sequence at position e is.
  function Intro(s: string, e: nat): (i: nat)
    requires e <= |s|
    ensures e <= i <= |s|
  {
    if At(s, e) == 'E' then e + 1 else e
  }

  // The sequence at position e asks for a device, but its argument is not the
  // device name.
  predicate BadDevice(s: string, e: nat)
    requires e <= |s| && '\0' !in s
  {
    var i := Intro(s, e);
    i < |s| && s[i] == '*' &&
    if At(s, i + 1) == '(' then i + 3 < |s| && s[i + 2..i + 4] != ".T"
    else if At(s, i + 1) == '[' then
      var f := ScanFor(s, i + 2, ']');
      f.Found? && s[i + 2..f.at] != ".T"
    else i + 1 < |s|
  }

  // The sequence at position e, and those nested in it, as far as they are
  // scanned.
  ghost function Scanned(s: string, e: nat): set<nat>
    requires e <= |s| && '\0' !in s
    decreases |s| - e, 1
  {
    var i := Intro(s, e);
    if i == |s| then {e}
    else
      HeadInside(s, i + 1);
      match HeadAt(s, i + 1, s[i])
      case Done(_, _, _, _) => {e}
      case Arg(_, start, _, term) => {e} + if term == '\0' then {} else ScannedFor(s, start, term)
  }

  ghost function ScannedFor(s: string, p: nat, term: char): set<nat>
    requires p <= |s| && '\0' !in s && term != '\0'
    decreases |s| - p, 0
  {
    if At(s, p) == term || p == |s| then {}
    else if s[p] == '\\' then
      var r := EscapeAt(s, p + 1);
      Scanned(s, p + 1) + if r.Abort? || r.esc == Error then {} else ScannedFor(s, r.end, term)
    else ScannedFor(s, p + 1, term)
  }

  // The assertion fails exactly if one of them is such a sequence.
  lemma {:induction false} AbortsExactly(s: string, e: nat)
    requires e <= |s| && '\0' !in s
    ensures EscapeAt(s, e).Abort? <==> exists q :: q in Scanned(s, e) && q <= |s| && BadDevice(s, q)
    decreases |s| - e, 1
  {
    hide CodePoint, CharNumber, FontOf, HeadAt, Process, ScanFor, BadDevice, ScannedFor;
    var i := Intro(s, e);
    if i == |s| {
      NoDevice(s, e);
    } else {
      HeadInside(s, i + 1);
      var h := HeadAt(s, i + 1, s[i]);
      if h.Done? {
        NoDevice(s, e);
      } else {
        OwnDevice(s, e);
        if h.term != '\0' {
          ScanAborts(s, h.start, h.term);
        }
      }
    }
  }

  lemma {:induction false} ScanAborts(s: string, p: nat, term: char)
    requires p <= |s| && '\0' !in s && term != '\0'
    ensures ScanFor(s, p, term).Aborted? <==> exists q :: q in ScannedFor(s, p, term) && q <= |s| && BadDevice(s, q)
    decreases |s| - p, 0
  {
    hide EscapeAt, BadDevice, Scanned;
    if p < |s| && s[p] != term {
      if s[p] == '\\' {
        AbortsExactly(s, p + 1);
        if EscapeAt(s, p + 1).Result? && EscapeAt(s, p + 1).esc != Error {
          ScanAborts(s, EscapeAt(s, p + 1).end, term);
        }
      } else {
        ScanAborts(s, p + 1, term);
      }
    }
  }

  // Only an asterisk asks for the device, and how it does.
  lemma DeviceHead(s: string, p: nat, c: char)
    requires 0 < p <= |s| && s[p - 1] == c
    ensures
      match HeadAt(s, p, c)
      case Done(_, _, _, _) => c != '*'
      case Arg(gly, start, sz, term) =>
        && (gly == Device <==> c == '*')
        && (c == '*' ==>
              if At(s, p) == '(' then start == p + 1 && sz == 2 && term == '\0'
              else if At(s, p) == '[' then start == p + 1 && sz == 0 && term == ']'
              else start == p && sz == 1 && term == '\0')
  {
  }

  lemma NoDevice(s: string, e: nat)
    requires e <= |s| && '\0' !in s && (Intro(s, e) == |s| || HeadAt(s, Intro(s, e) + 1, s[Intro(s, e)]).Done?)
    ensures !BadDevice(s, e)
  {
    hide HeadAt, ScanFor;
    var i := Intro(s, e);
    if i < |s| {
      DeviceHead(s, i + 1, s[i]);
    }
  }

  // What becomes of the argument of the sequence itself.
  lemma OwnDevice(s: string, e: nat)
    requires e <= |s| && '\0' !in s && Intro(s, e) < |s| && HeadAt(s, Intro(s, e) + 1, s[Intro(s, e)]).Arg?
    ensures
      var h := HeadAt(s, Intro(s, e) + 1, s[Intro(s, e)]);
      EscapeAt(s, e).Abort? <==>
            (h.term != '\0' && h.start <= |s| && ScanFor(s, h.start, h.term).Aborted?) || BadDevice(s, e)
  {
    hide CodePoint, CharNumber, FontOf, HeadAt, ScanFor;
    var i := Intro(s, e);
    HeadInside(s, i + 1);
    DeviceHead(s, i + 1, s[i]);
  }

  // A backslash is in front of each of the sequences.
  lemma {:induction false} ScannedBehind(s: string, e: nat, q: nat)
    requires 1 <= e <= |s| && '\0' !in s && s[e - 1] == '\\' && q in Scanned(s, e)
    ensures 1 <= q <= |s| && s[q - 1] == '\\'
    decreases |s| - e, 1
  {
    hide HeadAt, ScannedFor;
    if q != e {
      var i := Intro(s, e);
      HeadInside(s, i + 1);
      var h := HeadAt(s, i + 1, s[i]);
      ScannedForBehind(s, h.start, h.term, q);
    }
  }

  lemma {:induction false} ScannedForBehind(s: string, p: nat, term: char, q: nat)
    requires p <= |s| && '\0' !in s && term != '\0' && q in ScannedFor(s, p, term)
    ensures 1 <= q <= |s| && s[q - 1] == '\\'
    decreases |s| - p, 0
  {
    hide EscapeAt, Scanned;
    if s[p] == '\\' {
      if q in Scanned(s, p + 1) {
        ScannedBehind(s, p + 1, q);
      } else {
        ScannedForBehind(s, EscapeAt(s, p + 1).end, term, q);
      }
    } else {
      ScannedForBehind(s, p + 1, term, q);
    }
  }

  // Position i is behind a backslash, or behind a backslash and an E.
  predicate Introduced(s: string, i: nat) {
    (1 <= i <= |s| && s[i - 1] == '\\') || (2 <= i <= |s| && s[i - 1] == 'E' && s[i - 2] == '\\')
  }

  // An asterisk is only used for asking for the device name.
  predicate DeviceOnly(s: string) {
    forall i :: 0 <= i < |s| && s[i] == '*' && Introduced(s, i) ==> DeviceAt(s, i + 1)
  }

  predicate DeviceAt(s: string, p: nat) {
    (p + 2 < |s| && s[p..p + 3] == "(.T") || (p + 3 < |s| && s[p..p + 4] == "[.T]")
  }

  lemma GoodDevice(s: string, q: nat)
    requires 1 <= q <= |s| && '\0' !in s && s[q - 1] == '\\' && DeviceOnly(s)
    ensures !BadDevice(s, q)
  {
    hide ScanFor;
    var i := Intro(s, q);
    if i < |s| && s[i] == '*' {
      assert Introduced(s, i);
      var p := i + 1;
      if p + 2 < |s| && s[p..p + 3] == "(.T" {
        assert s[p] == s[p..p + 3][0] && s[p + 1..p + 3] == s[p..p + 3][1..];
      } else {
        var t := s[p..p + 4];
        assert s[p] == t[0] && s[p + 1] == t[1] && s[p + 2] == t[2] && s[p + 3] == t[3];
        ScanPlain(s, p + 1, p + 3, ']');
        assert s[p + 1..p + 3] == t[1..3];
      }
    }
  }

  // Then the assertion holds, however deeply sequences are nested.
  lemma NeverAborts(s: string, e: nat)
    requires 1 <= e <= |s| && '\0' !in s && s[e - 1] == '\\' && DeviceOnly(s)
    ensures EscapeAt(s, e).Result?
  {
    hide EscapeAt, Scanned, BadDevice, DeviceOnly;
    AbortsExactly(s, e);
    forall q | q in Scanned(s, e) && q <= |s|
      ensures !BadDevice(s, q)
    {
      ScannedBehind(s, e, q);
      GoodDevice(s, q);
    }
  }

  // The letter E in front of the asterisk does not help.
  lemma AbortExample()
    ensures EscapeAt("\\E*x", 1) == Abort
  {
    var s := "\\E*x";
    assert At(s, 1) == 'E' && s[2] == '*';
    assert HeadAt(s, 3, '*') == Arg(Device, 3, 1, '\0');
    assert s[3..4] == "x";
  }

  /*** names of glyphs and fonts **************************************************/

  // How a name can be written: glyphs as two characters, in brackets, or in
  // quotes, and fonts as one or two characters or in brackets.
  datatype Form = Pair | Bracketed | Quoted | FontLetter | FontPair | FontBracketed

  function Opening(form: Form): (s: string)
    ensures |s| >= 2 && s[0] == '\\' && '\0' !in s
  {
    match form
    case Pair => "\\("
    case Bracketed => "\\["
    case Quoted => "\\C'"
    case FontLetter => "\\f"
    case FontPair => "\\f("
    case FontBracketed => "\\f["
  }

  function Closing(form: Form): string {
    match form
    case Bracketed => "]"
    case FontBracketed => "]"
    case Quoted => "'"
    case _ => ""
  }

  function Sequence(form: Form, name: string): string {
    Opening(form) + name + Closing(form)
  }

  // Without a terminator, the length is fixed; otherwise the name contains
  // neither that nor other sequences, and a glyph of a single character is an
  // error except for the hyphen.
  predicate Writable(form: Form, name: string) {
    && '\0' !in name
    && (Closing(form) != "" ==> Closing(form)[0] !in name && '\\' !in name)
    && match form
       case Pair => |name| == 2
       case Bracketed => (|name| == 1 ==> name == "-") && (name != "" ==> name[0] != ' ')
       case Quoted => |name| == 1 ==> name == "-"
       case FontLetter => |name| == 1 && name != "(" && name != "["
       case FontPair => |name| == 2
       case FontBracketed => true
  }

  // What the name stands for: in a glyph, it can be a character number or a
  // code point.
  function Meaning(form: Form, name: string): Esc {
    if form.FontLetter? || form.FontPair? || form.FontBracketed? then FontOf(name)
    else if CharNumber(name) then Numbered
    else if CodePoint(name) then Unicode
    else Special
  }

  // A name is read back as it was written, with the end right behind it; for
  // a character number, only its digits are returned.
  lemma NameReadBack(form: Form, name: string, before: string, rest: string)
    requires Writable(form, name) && '\0' !in before && '\0' !in rest
    ensures
      var s, end := before + Sequence(form, name) + rest, |before| + |Sequence(form, name)|;
      var start, skipped := |before| + |Opening(form)|, if Meaning(form, name).Numbered? then 4 else 0;
      && '\0' !in s && s[start..start + |name|] == name && skipped <= |name|
      && EscapeAt(s, |before| + 1) == Result(Meaning(form, name), start + skipped, |name| - skipped, end)
  {
    hide EscapeAt, Meaning, Opening, Closing, Writable, Sequence;
    SequenceParts(form, name, before, rest);
    ReadInside(form, name, before + Sequence(form, name) + rest, |before|);
  }

  // The sequence for a name at position b.
  ghost predicate Holds(form: Form, name: string, s: string, b: nat) {
    var n := |Opening(form)|;
    && Writable(form, name) && '\0' !in s && b + n + |name| + |Closing(form)| <= |s|
    && s[b..b + n] == Opening(form) && s[b + n..b + n + |name|] == name
    && (Closing(form) != "" ==> s[b + n + |name|] == Closing(form)[0])
  }

  lemma ReadInside(form: Form, name: string, s: string, b: nat)
    requires Holds(form, name, s, b)
    ensures
      var start, skipped := b + |Opening(form)|, if Meaning(form, name).Numbered? then 4 else 0;
      && s[start..start + |name|] == name && skipped <= |name|
      && EscapeAt(s, b + 1)
         == Result(Meaning(form, name), start + skipped, |name| - skipped, start + |name| + |Closing(form)|)
  {
    hide EscapeAt, HeadAt, Meaning, Opening, Closing, Writable, Process, ScanFor;
    WritableName(form, name);
    var start := b + |Opening(form)|;
    OpeningRead(form, name, s, b + 1);
    ArgumentRead(s, b + 1, if form.FontLetter? || form.FontPair? || form.FontBracketed? then Font else Special,
                 start, name, if Closing(form) == "" then '\0' else Closing(form)[0]);
    NameMeans(form, name, s, start, start + |name| + |Closing(form)|);
  }

  lemma WritableName(form: Form, name: string)
    requires Writable(form, name)
    ensures Closing(form) != "" ==> Closing(form)[0] !in name && '\\' !in name && Closing(form)[0] != '\0'
    ensures form.Bracketed? || form.Quoted? ==> |name| == 1 ==> name == "-"
    ensures form.Pair? ==> Closing(form) == ""
    ensures |Closing(form)| <= 1
  {
  }

  lemma SequenceParts(form: Form, name: string, before: string, rest: string)
    requires Writable(form, name) && '\0' !in before && '\0' !in rest
    ensures
      && Holds(form, name, before + Sequence(form, name) + rest, |before|)
      && |Sequence(form, name)| == |Opening(form)| + |name| + |Closing(form)|
  {
    hide Opening;
    var o, c := Opening(form), Closing(form);
    var s, b := before + (o + name + c) + rest, |before|;
    assert '\0' !in c;
    assert s[b..b + |o|] == o;
    assert s[b + |o|..b + |o| + |name|] == name;
    assert c != "" ==> s[b + |o| + |name|] == c[0];
  }

  lemma OpeningRead(form: Form, name: string, s: string, e: nat)
    requires 0 < e && e - 1 + |Opening(form)| + |name| + |Closing(form)| <= |s| && Writable(form, name)
    requires s[e - 1..e - 1 + |Opening(form)|] == Opening(form)
    requires
      var start := e - 1 + |Opening(form)|;
      s[start..start + |name|] == name && (Closing(form) != "" ==> s[start + |name|] == Closing(form)[0])
    ensures e < |s| && s[e] != 'E'
    ensures
      var font := form.FontLetter? || form.FontPair? || form.FontBracketed?;
      HeadAt(s, e + 1, s[e]) == Arg(if font then Font else Special, e - 1 + |Opening(form)|,
          if Closing(form) == "" then |name| else 0, if Closing(form) == "" then '\0' else Closing(form)[0])
  {
    var start := e - 1 + |Opening(form)|;
    assert s[e] == s[e - 1..start][1] && (start > e + 1 ==> s[e + 1] == s[e - 1..start][2]);
    assert name != "" ==> s[start] == s[start..start + |name|][0];
  }

  // The argument found at start, in front of a terminator unless that is NUL.
  lemma ArgumentRead(s: string, e: nat, gly: Esc, start: nat, name: string, term: char)
    requires e < |s| && '\0' !in s && s[e] != 'E' && e <= start && start + |name| <= |s|
    requires s[start..start + |name|] == name
    requires HeadAt(s, e + 1, s[e]) == Arg(gly, start, if term == '\0' then |name| else 0, term)
    requires term != '\0' ==>
               start + |name| < |s| && s[start + |name|] == term && term !in name && '\\' !in name
    requires gly == Special && term != '\0' && |name| == 1 ==> name == "-"
    ensures EscapeAt(s, e) == Process(s, gly, start, |name|, start + |name| + if term == '\0' then 0 else 1)
  {
    hide Process, HeadAt, ScanFor;
    if term != '\0' {
      assert forall i :: start <= i < start + |name| ==> s[i] == name[i - start];
      ScanPlain(s, start, start + |name|, term);
    }
  }

  lemma NameMeans(form: Form, name: string, s: string, start: nat, end: nat)
    requires start + |name| <= end <= |s| && s[start..start + |name|] == name
    ensures
      var font := form.FontLetter? || form.FontPair? || form.FontBracketed?;
      var skipped := if Meaning(form, name).Numbered? then 4 else 0;
      && skipped <= |name|
      && Process(s, if font then Font else Special, start, |name|, end)
         == Result(Meaning(form, name), start + skipped, |name| - skipped, end)
  {
    assert CharNumber(name) ==> name[..4][0] == "char"[0] == s[start];
  }

  /*** from a code point to UTF-8 and back ****************************************/

  lemma {:induction false} ScanPlain(s: string, p: nat, q: nat, term: char)
    requires p <= q < |s| && '\0' !in s && s[q] == term && term != '\0'
    requires forall i :: p <= i < q ==> s[i] != term && s[i] != '\\'
    ensures ScanFor(s, p, term) == Found(q)
    decreases q - p
  {
    hide EscapeAt;
    if p < q {
      ScanPlain(s, p + 1, q, term);
    }
  }

  lemma TwoDigits(d: string)
    requires |d| == 2
    ensures HexValue(d) == DigitValue(d[0]) * 16 + DigitValue(d[1])
  {
    hide HexValue, DigitValue;
    HexNone();
    HexSnoc([], d[0]);
    HexSnoc([] + [d[0]], d[1]);
    assert d == [] + [d[0]] + [d[1]];
  }

  lemma OneDigit(d: string)
    requires |d| == 1
    ensures HexValue(d) == DigitValue(d[0])
  {
    hide HexValue, DigitValue;
    HexNone();
    HexSnoc([], d[0]);
    assert d == [] + [d[0]];
  }

  lemma HighSurrogate(a: char, b: char)
    requires !(0xD8 <= DigitValue(a) * 16 + DigitValue(b) <= 0xDF)
    ensures !(a == 'D' && HighDigit(b))
  {
  }

  lemma OnlyOneZero(c: char)
    ensures DigitValue(c) == 0 <==> c == '0'
    ensures DigitValue(c) == 1 <==> c == '1'
  {
  }

  // The digits of a scalar value pass the check.
  lemma DigitsPass(cp: nat)
    requires Scalar(cp) && cp > 0x7F
    ensures CodePoint(['u'] + HexText(cp, 4))
  {
    hide HexText, HexValue;
    var d := HexText(cp, 4);
    var a := ['u'] + d;
    HexRoundTrip(cp, 4);
    HexLength(cp);
    assert a[1..] == d && a[1] == d[0] && a[2] == d[1];
    HexBelow(d);
    if |d| == 4 {
      TwoOfFour(d);
      HighSurrogate(d[0], d[1]);
    } else {
      var k := |d| - 4;
      HexConcat(d[..k], d[k..]);
      assert d == d[..k] + d[k..];
      HexBelow(d[k..]);
      OnlyOneZero(d[0]);
      OnlyOneZero(d[1]);
      if k == 1 {
        OneDigit(d[..1]);
      } else {
        TwoDigits(d[..2]);
        assert d[..2][0] == d[0] && d[..2][1] == d[1];
        assert DigitValue(d[0]) * 16 + DigitValue(d[1]) == 16;
      }
    }
  }

  // Scanning what preconv_encode() writes gives the code point back.
  lemma ReadsBack(cp: nat, before: string, rest: string)
    requires Scalar(cp) && cp > 0x7F && '\0' !in before && '\0' !in rest
    ensures
      var s, e := before + Escaped(cp) + rest, |before| + 1;
      && '\0' !in s && e <= |s|
      && var r := EscapeAt(s, e);
         && r == Result(Unicode, e + 1, |HexText(cp, 4)| + 1, |before| + |Escaped(cp)|)
         && Num2uc(s[r.start + 1..r.start + r.sz]) == cp
  {
    hide HexText, HexValue, CodePoint, CharNumber, ScanFor, DigitValue, HeadAt;
    var s, e, d := before + Escaped(cp) + rest, |before| + 1, HexText(cp, 4);
    HexRoundTrip(cp, 4);
    HexLength(cp);
    HexPlain(d);
    var q := e + 2 + |d|;
    assert Escaped(cp) == ['\\', '[', 'u'] + d + [']'];
    assert s[e] == '[' && s[e + 1] == 'u' && s[e + 2..q] == d && s[q] == ']';
    forall i | e + 2 <= i < q
      ensures s[i] == d[i - e - 2]
    {
    }
    assert '\0' !in Escaped(cp);
    ScanPlain(s, e + 1, q, ']');
    DigitsPass(cp);
    assert s[e + 1..q] == ['u'] + d;
    BracketHead(s, e);
    assert Process(s, Special, e + 1, |d| + 1, q + 1) == Result(Unicode, e + 1, |d| + 1, q + 1);
    hide Process;
    EscapeOfBracket(s, e, q);
  }

  // For example, d800 passes as a code point.
  lemma SurrogateExample()
    ensures EscapeAt("\\[ud800]", 1) == Result(Unicode, 2, 5, 8) && Num2uc("d800") == 0xD800
  {
    hide HeadAt, ScanFor, HexValue;
    var s := "\\[ud800]";
    assert s[2..7] == "ud800" && "ud800"[1..] == "d800";
    FirstSurrogate();
    ScanPlain(s, 2, 7, ']');
    BracketHead(s, 1);
    assert CodePoint("ud800");
    assert Process(s, Special, 2, 5, 8) == Result(Unicode, 2, 5, 8);
    EscapeOfBracket(s, 1, 7);
  }

  lemma FirstSurrogate()
    ensures HexValue("d800") == 0xD800
  {
    hide HexValue;
    HexNone();
    HexSnoc([], 'd');
    HexSnoc("d", '8');
    HexSnoc("d8", '0');
    HexSnoc("d80", '0');
    assert [] + ['d'] == "d" && "d" + ['8'] == "d8" && "d8" + ['0'] == "d80" && "d80" + ['0'] == "d800";
  }

  lemma BracketHead(s: string, e: nat)
    requires e + 1 < |s| && s[e] == '[' && s[e + 1] != ' '
    ensures HeadAt(s, e + 1, '[') == Arg(Special, e + 1, 0, ']')
  {
  }

  // A name in brackets.
  lemma EscapeOfBracket(s: string, e: nat, q: nat)
    requires e < |s| && '\0' !in s && s[e] == '[' && HeadAt(s, e + 1, '[') == Arg(Special, e + 1, 0, ']')
    requires e + 1 < q < |s| && ScanFor(s, e + 1, ']') == Found(q) && q != e + 2
    ensures EscapeAt(s, e) == Process(s, Special, e + 1, q - (e + 1), q + 1)
  {
    hide Process, HeadAt, ScanFor;
  }

  lemma HexPlain(d: string)
    requires IsHex(d)
    ensures forall i :: 0 <= i < |d| ==> d[i] != ']' && d[i] != '\\' && d[i] != '\0'
  {
  }

  // A code point survives the way through UTF-8, the input converter, and the
  // escape scanner.
  method Chain(cp: nat) returns (code: int)
    requires Scalar(cp) && cp > 0x7F
    ensures code == cp
  {
    hide EscapeAt, Escaped, SequenceLen, CodeAt, Utf8.Utf8, HexValue;
    var b := Utf8.Utf8(cp);
    EncodesScalar(cp, []);
    assert b + [] == b;
    FirstByte(cp);
    var ok, next, text, enc := Encode(b, 0, Encodings(true, true));
    ReadsBack(cp, [], []);
    assert [] + Escaped(cp) + [] == text;
    var r := ReadEscape(text, 1);
    code := Num2uc(text[r.start + 1..r.start + r.sz]);
  }

  lemma FirstByte(cp: nat)
    requires Scalar(cp) && cp > 0x7F
    ensures ByteAt(Utf8.Utf8(cp), 0) >= 0x80
  {
  }
}
