// Read-only access to the database file: userland/mandoc/dbm_map.c and the
// table lookups of userland/mandoc/dbm.c.
module Dbm {
  import opened Bytes
  import opened Layout
  import opened Locate
  import opened Options

  datatype OpenError =
    | TooShort | TooBig | BadMagic | BadVersion | BadSize | BadEnd
    | BadPageCount | BadMacrosOffset | BadMacroCount | BadMacroOffset(im: nat)

  datatype Result<+T> = Success(value: T) | Failure(error: OpenError)

  // The integer at offset o of the mapping; behind the end of the file, the
  // rest of the mapping reads as zero.
  function MapInt(f: Str, o: nat): int {
    if o + 4 <= |f| then IntAt(f, o) else IntAt(f + Zeros(o + 4), o)
  }

  // dbm_get(): the offset stored in a pointer if it lies inside the file.
  function Get(f: Str, offset: int): (o: Option<nat>)
    ensures o.Some? <==> 0 <= offset < |f|
    ensures o.Some? ==> o.value == offset
  {
    if offset < 0 then None
    else if offset >= |f| then None
    else Some(offset)
  }

  // dbm_map(): check the header, the file size, and the closing magic number.
  function Map(f: Str): (r: Result<()>) {
    if |f| < 5 then Failure(TooShort)
    else if |f| > INT32_MAX then Failure(TooBig)
    else if MapInt(f, 0) != MAGIC then Failure(BadMagic)
    else if MapInt(f, 4) != VERSION then Failure(BadVersion)
    else if MapInt(f, 12) + 4 != |f| then Failure(BadSize)
    else if Get(f, MapInt(f, 12)) == None then Failure(BadEnd)
    else if MapInt(f, MapInt(f, 12)) != MAGIC then Failure(BadEnd)
    else Success(())
  }

  // What dbm_open() learns about the file: the number of pages, and for each
  // macro the number of values and where its table of pointer pairs starts.
  datatype Index = Index(npages: nat, nvals: seq<int>, macros: seq<nat>)

  // The pointer to the table of macro im in a macros table at offset mp.
  function MacroOffset(f: Str, mp: nat, im: nat): int {
    MapInt(f, mp + 4 + 4 * im)
  }

  // dbm_open()
  method Open(f: Str) returns (r: Result<Index>)
    ensures r.Success? <==> Opens(f)
    ensures r.Success? ==> IndexOf(r.value, f)
  {
    hide Map, MapInt;
    var m := Map(f);
    if m.Failure? {
      return Failure(m.error);
    }
    var npages := MapInt(f, 16);
    if npages < 0 {
      return Failure(BadPageCount);
    }
    var mp := Get(f, MapInt(f, 8));
    if mp.None? {
      return Failure(BadMacrosOffset);
    }
    if MapInt(f, mp.value) != MACRO_MAX {
      return Failure(BadMacroCount);
    }
    var nvals: seq<int>, macros: seq<nat> := [], [];
    for im := 0 to MACRO_MAX
      invariant |nvals| == |macros| == im
      invariant forall i :: 0 <= i < im ==> MacroPlaced(f, mp.value, i, nvals[i], macros[i])
    {
      var ep := Get(f, MacroOffset(f, mp.value, im));
      if ep.None? {
        return Failure(BadMacroOffset(im));
      }
      nvals := nvals + [MapInt(f, ep.value)];
      macros := macros + [ep.value + 4];
    }
    forall im: nat | im < MACRO_MAX
      ensures Get(f, MacroOffset(f, MapInt(f, 8), im)).Some?
    {
      assert MacroPlaced(f, mp.value, im, nvals[im], macros[im]);
    }
    r := Success(Index(npages, nvals, macros));
  }

  // Which files dbm_open() accepts.
  ghost predicate Opens(f: Str) {
    && Map(f).Success? && MapInt(f, 16) >= 0
    && Get(f, MapInt(f, 8)).Some? && MapInt(f, MapInt(f, 8)) == MACRO_MAX
    && forall im: nat {:trigger MacroOffset(f, MapInt(f, 8), im)} :: im < MACRO_MAX ==>
         Get(f, MacroOffset(f, MapInt(f, 8), im)).Some?
  }

  // In terms of bytes: the magic number 3a7d0cdb at both ends, version 1, the
  // position of the closing magic number, and 36 macro tables in the file.
  lemma OpensExactly(f: Str)
    ensures Opens(f) <==>
              && 8 <= |f| < 0x8000_0000 && f[..4] == [0x3a, 0x7d, 0x0c, 0xdb] && f[4..8] == [0, 0, 0, 1]
              && MapInt(f, 12) == |f| - 4 && f[|f| - 4..] == [0x3a, 0x7d, 0x0c, 0xdb]
              && MapInt(f, 16) >= 0 && 0 <= MapInt(f, 8) < |f| && MapInt(f, MapInt(f, 8)) == 36
              && forall im: nat {:trigger MacroOffset(f, MapInt(f, 8), im)} :: im < 36 ==>
                   0 <= MacroOffset(f, MapInt(f, 8), im) < |f|
  {
    hide MapInt;
    if |f| >= 5 {
      MagicBytes(f, 0);
      VersionBytes(f);
      MagicBytes(f, |f| - 4);
    }
  }

  lemma MagicBytes(f: Str, o: nat)
    requires o + 4 <= |f|
    ensures MapInt(f, o) == MAGIC <==> f[o..o + 4] == [0x3a, 0x7d, 0x0c, 0xdb]
  {
    var b: seq<int> := f[o..o + 4];
    assert f[o..o + 4] == [b[0], b[1], b[2], b[3]];
  }

  lemma VersionBytes(f: Str)
    requires |f| >= 5
    ensures MapInt(f, 4) == VERSION <==> |f| >= 8 && f[4..8] == [0, 0, 0, 1]
  {
    var g := if |f| >= 8 then f else f + Zeros(8);
    var b: seq<int> := g[4..8];
    assert g[4..8] == [b[0], b[1], b[2], b[3]];
  }

  ghost predicate MacroPlaced(f: Str, mp: nat, im: nat, nval: int, macro: nat) {
    var ep := MacroOffset(f, mp, im);
    0 <= ep < |f| && nval == MapInt(f, ep) && macro == ep + 4
  }

  ghost predicate IndexOf(ix: Index, f: Str) {
    && ix.npages == MapInt(f, 16) && |ix.nvals| == |ix.macros| == MACRO_MAX
    && MapInt(f, 8) >= 0
    && forall im :: 0 <= im < MACRO_MAX ==> MacroPlaced(f, MapInt(f, 8), im, ix.nvals[im], ix.macros[im])
  }

  /*** pages ***********************************************************/

  // A pointer into the mapped file or into a string constant.
  datatype CPtr = CPtr(mem: Str, o: nat)

  function OrConstant(f: Str, o: Option<nat>, s: Str): CPtr {
    if o.Some? then CPtr(f, o.value) else CPtr(s, 0)
  }

  // "(NULL)" and " (NULL)", each with two NUL bytes at the end.
  const NULL_STRING: Str := [40, 78, 85, 76, 76, 41, 0, 0]
  const NULL_FILE: Str := [32] + NULL_STRING

  datatype PageData = PageData(name: CPtr, sect: CPtr, arch: Option<CPtr>, desc: CPtr, file: CPtr, addr: nat)

  // dbm_page_get()
  function PageGet(f: Str, ip: nat): PageData {
    var p := PageAddr(ip);
    var arch := MapInt(f, p + 8);
    PageData(
      OrConstant(f, Get(f, MapInt(f, p)), NULL_STRING),
      OrConstant(f, Get(f, MapInt(f, p + 4)), NULL_STRING),
      if arch != 0 && Get(f, arch).Some? then Some(CPtr(f, arch)) else None,
      OrConstant(f, Get(f, MapInt(f, p + 12)), NULL_STRING),
      OrConstant(f, Get(f, MapInt(f, p + 16)), NULL_FILE),
      p)
  }

  lemma WrittenMacro(rows: seq<Row>, ms: seq<seq<Value>>, im: nat)
    requires Shaped(rows) && |ms| == MACRO_MAX && |FileBytes(rows, ms)| <= INT32_MAX && im < MACRO_MAX
    ensures MacroOffset(FileBytes(rows, ms), MacrosPos(rows), im) == MacroPos(ms, MacrosPos(rows), im)
    ensures MacroPos(ms, MacrosPos(rows), im) < |FileBytes(rows, ms)|
    ensures At(FileBytes(rows, ms), MacrosPos(rows), IntBytes(MACRO_MAX))
  {
    hide PagesBytes, MacrosBytes, FileBytes, IntBytes, IntAt, MacroPos;
    FileParts(rows, ms);
    MacroAt(FileBytes(rows, ms), ms, MacrosPos(rows), im);
  }

  // A written file can be opened, and the index describes it.
  lemma WrittenOpens(rows: seq<Row>, ms: seq<seq<Value>>)
    requires Shaped(rows) && |ms| == MACRO_MAX && |FileBytes(rows, ms)| <= INT32_MAX
    ensures
      var f := FileBytes(rows, ms);
      && Opens(f) && MapInt(f, 16) == |rows| && MapInt(f, 8) == MacrosPos(rows)
      && forall im: nat :: im < MACRO_MAX ==> MacroOffset(f, MacrosPos(rows), im) == MacroPos(ms, MacrosPos(rows), im)
  {
    hide PagesBytes, MacrosBytes, FileBytes, IntBytes, IntAt;
    var f := FileBytes(rows, ms);
    FileParts(rows, ms);
    IntRoundTrip(f, 0, MAGIC);
    IntRoundTrip(f, 4, VERSION);
    IntRoundTrip(f, 8, MacrosPos(rows));
    IntRoundTrip(f, 12, EndPos(rows, ms));
    IntRoundTrip(f, EndPos(rows, ms), MAGIC);
    PagesParts(f, rows, 16);
    IntRoundTrip(f, 16, |rows|);
    hide MacroOffset, MacroPos, At, MacrosPos, EndPos;
    forall im: nat | im < MACRO_MAX
      ensures MacroOffset(f, MacrosPos(rows), im) == MacroPos(ms, MacrosPos(rows), im) < |f|
    {
      WrittenMacro(rows, ms, im);
    }
    WrittenMacro(rows, ms, 0);
    IntRoundTrip(f, MacrosPos(rows), MACRO_MAX);
  }

  lemma WrittenTable(rows: seq<Row>, ms: seq<seq<Value>>, im: nat)
    requires Shaped(rows) && |ms| == MACRO_MAX && |FileBytes(rows, ms)| <= INT32_MAX && im < MACRO_MAX
    ensures
      var f, o := FileBytes(rows, ms), MacroPos(ms, MacrosPos(rows), im);
      && At(f, o, TableBytes(ms[im], o)) && MapInt(f, o) == |ms[im]|
  {
    hide PagesBytes, MacrosBytes, FileBytes, IntBytes, IntAt, TableBytes;
    var f, o := FileBytes(rows, ms), MacroPos(ms, MacrosPos(rows), im);
    FileParts(rows, ms);
    MacroAt(f, ms, MacrosPos(rows), im);
    TableParts(f, ms[im], o);
    IntRoundTrip(f, o, |ms[im]|);
  }

  // The pointers dbm_page_get() returns lead to the entries of the page.
  lemma WrittenPage(rows: seq<Row>, ms: seq<seq<Value>>, ip: nat)
    requires Shaped(rows) && ip < |rows| && |FileBytes(rows, ms)| <= INT32_MAX
    ensures
      var f, d, row := FileBytes(rows, ms), PageGet(FileBytes(rows, ms), ip), rows[ip];
      && d.name.mem == d.sect.mem == d.desc.mem == d.file.mem == f
      && At(f, d.name.o, FieldBytes(row[DBP_NAME])) && At(f, d.sect.o, FieldBytes(row[DBP_SECT]))
      && At(f, d.desc.o, FieldBytes(row[DBP_DESC])) && At(f, d.file.o, FieldBytes(row[DBP_FILE]))
      && (d.arch == None <==> row[DBP_ARCH].Null?)
      && (d.arch.Some? ==> d.arch.value.mem == f && At(f, d.arch.value.o, FieldBytes(row[DBP_ARCH])))
      && d.addr == PageAddr(ip)
  {
    hide FileBytes, FieldBytes, FieldPos, IntAt;
    FieldInFile(rows, ms, ip, DBP_NAME);
    FieldInFile(rows, ms, ip, DBP_SECT);
    FieldInFile(rows, ms, ip, DBP_ARCH);
    FieldInFile(rows, ms, ip, DBP_DESC);
    FieldInFile(rows, ms, ip, DBP_FILE);
    NullPos(rows, ip);
  }

  lemma NullPos(rows: seq<Row>, ip: nat)
    requires Shaped(rows) && ip < |rows|
    ensures rows[ip][DBP_ARCH].Null? ==> FieldPos(rows, 16, ip, DBP_ARCH) == 0
  {
  }
}
