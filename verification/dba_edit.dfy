// Adding pages and names to the database in memory: userland/mandoc/dba.c.
module DbaEdit {
  import opened Bytes
  import opened DbaArrays
  import opened DbaPages
  import opened Layout
  import opened Options
  import opened Order

  // *c < ' '
  predicate BelowSpace(c: Byte) {
    Signed(c) < 32
  }

  // The string that a new string for entry ie is compared to: the form byte
  // in front of a file name is skipped.
  function Plain(s: Str, ie: nat): Str {
    if ie == DBP_FILE && s != [] && BelowSpace(s[0]) then s[1..] else s
  }

  predicate Known(l: seq<Str>, s: Str, ie: nat) {
    exists i :: 0 <= i < |l| && Plain(l[i], ie) == s
  }

  // Entry ie after adding a string to it.
  function Added(f: Field, ie: nat, s: Str): Field {
    if !f.Strings? || s == [] || Known(f.l, s, ie) then f else Strings(f.l + [s])
  }

  // The entries of a new page.
  function NewRow(arch: Option<Str>, desc: Str, file: Str, form: Byte): Row {
    [Strings([]), Strings([]), if arch.Some? && arch.value != [] then Strings([arch.value]) else Null,
     Text(desc), Strings([[form] + file])]
  }

  // The strings of entry ie are different ones, so none is dropped when they
  // are added again.
  predicate NoRepeats(l: seq<Str>, ie: nat) {
    forall i, j :: 0 <= i < j < |l| ==> Plain(l[i], ie) != l[j]
  }

  // What holds of all pages that dba_page_new(), dba_page_add(), and
  // dba_page_alias() build.
  predicate Built(row: Row) {
    && RowOk(row)
    && (forall ie :: 0 <= ie < DBP_MAX && row[ie].Strings? ==> NoRepeats(row[ie].l, ie))
    && (row[DBP_ARCH].Strings? ==> row[DBP_ARCH].l != [])
    && row[DBP_FILE].l != []
    && (forall i :: 0 <= i < |row[DBP_FILE].l| ==> (BelowSpace(row[DBP_FILE].l[i][0]) <==> i == 0))
  }

  // All names differ, not counting their mask bytes.
  predicate NamesApart(l: seq<Str>) {
    ListOk(l) && forall i, j :: 0 <= i < j < |l| ==> l[i][1..] != l[j][1..]
  }

  predicate Assembled(row: Row) {
    Built(row) && NamesApart(row[DBP_NAME].l)
  }

  lemma NewAssembled(arch: Option<Str>, desc: Str, file: Str, form: Byte)
    requires form != 0 && BelowSpace(form) && NoNul(desc) && NoNul(file) && (arch.Some? ==> NoNul(arch.value))
    ensures Assembled(NewRow(arch, desc, file, form))
  {
  }

  lemma AddedAssembled(row: Row, ie: nat, s: Str)
    requires Assembled(row) && NoNul(s) && (ie == DBP_SECT || ie == DBP_ARCH || ie == DBP_FILE)
    requires ie == DBP_FILE && s != [] ==> !BelowSpace(s[0])
    ensures Assembled(row[ie := Added(row[ie], ie, s)])
  {
    var row' := row[ie := Added(row[ie], ie, s)];
    if row'[ie] != row[ie] {
      var l := row[ie].l;
      assert row'[ie].l == l + [s];
      forall i, j | 0 <= i < j < |l| + 1
        ensures Plain((l + [s])[i], ie) != (l + [s])[j]
      {
        if j == |l| {
          assert !Known(l, s, ie);
        } else {
          assert NoRepeats(l, ie);
        }
      }
    }
  }

  // The entries of a page after adding a string.
  function AddedTo(row: Row, ie: nat, str: Option<Str>): Row
    requires RowShape(row) && (ie == DBP_NAME || ie == DBP_SECT || ie == DBP_ARCH || ie == DBP_FILE)
    requires ie != DBP_ARCH ==> str.Some?
  {
    row[ie := if ie == DBP_ARCH && (str.None? || str.value == []) then Null else Added(row[ie], ie, str.value)]
  }

  // A string goes to the end unless it is there; for file names, a byte below
  // the space in front of what is there does not count.
  lemma AddedOnce(f: Field, ie: nat, s: Str)
    requires f.Strings? && s != []
    ensures ie != DBP_FILE ==> Added(f, ie, s) == if s in f.l then f else Strings(f.l + [s])
    ensures ie == DBP_FILE && 32 <= s[0] < 128 ==>
              Added(f, ie, s)
              == if s in f.l || (exists c: Byte :: (c < 32 || c >= 128) && [c] + s in f.l) then f
                 else Strings(f.l + [s])
  {
    if ie == DBP_FILE && 32 <= s[0] < 128 {
      forall i | 0 <= i < |f.l|
        ensures Plain(f.l[i], ie) == s <==>
                  f.l[i] == s || (f.l[i] != [] && (f.l[i][0] < 32 || f.l[i][0] >= 128) && f.l[i] == [f.l[i][0]] + s)
      {
      }
    }
  }

  lemma PageAddAssembled(row: Row, ie: nat, str: Option<Str>)
    requires RowOk(row) && (ie == DBP_NAME || ie == DBP_SECT || ie == DBP_ARCH || ie == DBP_FILE)
    requires (str.Some? ==> NoNul(str.value)) && (ie != DBP_ARCH ==> str.Some?)
    ensures
      Assembled(row) && ie != DBP_NAME && (ie == DBP_FILE && str.value != [] ==> !BelowSpace(str.value[0])) ==>
        Assembled(AddedTo(row, ie, str))
  {
    hide Built, NamesApart;
    if Assembled(row) && ie != DBP_NAME && (ie == DBP_FILE && str.value != [] ==> !BelowSpace(str.value[0])) {
      NullAssembled(row);
      if str.Some? {
        AddedAssembled(row, ie, str.value);
      }
    }
  }

  lemma NullAssembled(row: Row)
    requires Assembled(row)
    ensures Assembled(row[DBP_ARCH := Null])
  {
  }

  method MakePage(arch: Option<Str>, desc: Str, file: Str, form: Byte) returns (page: Page)
    requires form != 0 && NoNul(desc) && NoNul(file) && (arch.Some? ==> NoNul(arch.value))
    ensures fresh(page) && PageOk(page)
    ensures page.ep == NewRow(arch, desc, file, form) && page.em == [0, 0, 0, 0, 0] && page.pos == 0
  {
    hide LiveFrom;
    page := new DbaArray<Field>(DBP_MAX, false);
    page.Add(Strings([]));
    page.Add(Strings([]));
    page.Add(if arch.Some? && arch.value != [] then Strings([arch.value]) else Null);
    page.Add(Text(desc));
    page.Add(Strings([[form] + file]));
  }

  // dba_page_new(): a page without names and sections becomes the last one.
  method PageNew(pages: DbaArray<Page>, arch: Option<Str>, desc: Str, file: Str, form: Byte) returns (page: Page)
    requires PagesOk(pages) && (|pages.ep| == pages.ea ==> pages.grow)
    requires form != 0 && NoNul(desc) && NoNul(file) && (arch.Some? ==> NoNul(arch.value))
    modifies pages
    ensures PagesOk(pages) && fresh(page) && pages.ep == old(pages.ep) + [page] && pages.em == old(pages.em) + [0]
    ensures page.ep == NewRow(arch, desc, file, form) && page.em == [0, 0, 0, 0, 0] && page.pos == 0
    ensures BelowSpace(form) ==> Assembled(page.ep)
  {
    hide LiveFrom, PageOk;
    if BelowSpace(form) {
      NewAssembled(arch, desc, file, form);
    }
    ghost var tbl := pages.ep;
    page := MakePage(arch, desc, file, form);
    forall i | 0 <= i < |tbl|
      ensures PageOk(tbl[i]) && tbl[i] != page
    {
    }
    pages.Add(page);
    assert pages.ep == tbl + [page];
    forall i | 0 <= i < |tbl|
      ensures PageOk(tbl[i])
    {
    }
  }

  // dba_page_add(): one more string for a page.  Without any architecture, the
  // page is machine-independent for good.
  method PageAdd(page: Page, ie: nat, str: Option<Str>)
    requires PageOk(page) && (ie == DBP_NAME || ie == DBP_SECT || ie == DBP_ARCH || ie == DBP_FILE)
    requires str.Some? ==> NoNul(str.value)
    requires ie != DBP_ARCH ==> str.Some?
    modifies page
    ensures PageOk(page) && page.pos == old(page.pos)
    ensures page.ep == AddedTo(old(page.ep), ie, str)
    ensures
      Assembled(old(page.ep)) && ie != DBP_NAME && (ie == DBP_FILE && str.value != [] ==> !BelowSpace(str.value[0])) ==>
        Assembled(page.ep)
  {
    hide Assembled;
    PageAddAssembled(page.ep, ie, str);
    var entries := page.ep[ie];
    if ie == DBP_ARCH {
      if entries.Null? {
        return;
      }
      if str.None? || str.value == [] {
        page.Set(DBP_ARCH, Null);
        return;
      }
    }
    if str.value == [] {
      return;
    }
    for i := 0 to |entries.l|
      invariant !Known(entries.l[..i], str.value, ie)
    {
      if Plain(entries.l[i], ie) == str.value {
        assert Known(entries.l, str.value, ie);
        return;
      }
      assert entries.l[..i + 1] == entries.l[..i] + [entries.l[i]];
    }
    assert entries.l[..|entries.l|] == entries.l;
    page.ep := page.ep[ie := Strings(entries.l + [str.value])];
  }

  /*** names *******************************************************************/

  const NAME_MASK: Byte := 0x1f

  function OrByte(a: Byte, b: Byte): Byte {
    ((a as bv8) | (b as bv8)) as int
  }

  lemma OrNonzero(a: Byte, b: Byte)
    requires a != 0
    ensures OrByte(a, b) != 0
  {
    var x, y := a as bv8, b as bv8;
    assert x != 0;
    assert x | y != 0;
  }

  // The names of a page after adding a name with some mask bits.
  function Aliased(l: seq<Str>, name: Str, mask: Byte): seq<Str>
    requires ListOk(l)
  {
    if name == [] then l
    else
      var k := NameAt(l, name, 0);
      if k < |l| then l[k := [OrByte(l[k][0], mask)] + name] else l + [[mask] + name]
  }

  // The first entry from number k on with this name.
  function NameAt(l: seq<Str>, name: Str, k: nat): (r: nat)
    requires k <= |l| && ListOk(l)
    ensures k <= r <= |l| && (r < |l| ==> l[r][1..] == name) && forall i :: k <= i < r ==> l[i][1..] != name
    decreases |l| - k
  {
    if k == |l| || l[k][1..] == name then k else NameAt(l, name, k + 1)
  }

  // Adding names keeps them apart.
  lemma AliasedApart(l: seq<Str>, name: Str, mask: Byte)
    requires NamesApart(l) && NoNul(name) && mask != 0
    ensures NamesApart(Aliased(l, name, mask))
    ensures NoRepeats(Aliased(l, name, mask), DBP_NAME)
    ensures name != [] ==> exists i :: 0 <= i < |Aliased(l, name, mask)| && Aliased(l, name, mask)[i][1..] == name
  {
    hide OrByte;
    var l' := Aliased(l, name, mask);
    if name != [] {
      var k := NameAt(l, name, 0);
      if k < |l| {
        OrNonzero(l[k][0], mask);
      }
      assert forall i :: 0 <= i < |l| ==> l'[i][1..] == l[i][1..];
      assert l'[k][1..] == name;
    }
    assert forall i, j :: 0 <= i < j < |l'| && l'[i] == l'[j] ==> l'[i][1..] == l'[j][1..];
  }

  // The mask of a name; zero if the page does not have it.
  function MaskOf(l: seq<Str>, name: Str): Byte
    requires ListOk(l)
  {
    if l == [] then 0 else if l[0][1..] == name then l[0][0] else MaskOf(l[1..], name)
  }

  lemma {:induction false} MaskAt(l: seq<Str>, name: Str, k: nat)
    requires k <= |l| && ListOk(l) && (forall i :: 0 <= i < k ==> l[i][1..] != name) && (k < |l| ==> l[k][1..] == name)
    ensures MaskOf(l, name) == if k < |l| then l[k][0] else 0
  {
    if k > 0 {
      MaskAt(l[1..], name, k - 1);
    }
  }

  lemma {:induction false} SameMask(l: seq<Str>, l': seq<Str>, name: Str)
    requires ListOk(l) && ListOk(l') && |l'| >= |l|
    requires forall i :: 0 <= i < |l| ==> l'[i][1..] == l[i][1..] && (l[i][1..] == name ==> l'[i] == l[i])
    requires forall i :: |l| <= i < |l'| ==> l'[i][1..] != name
    ensures MaskOf(l', name) == MaskOf(l, name)
    decreases |l'|
  {
    if l' != [] {
      if l == [] {
        SameMask(l, l'[1..], name);
      } else {
        SameMask(l[1..], l'[1..], name);
      }
    }
  }

  // The mask bits of the name are joined to those it had, and all other names
  // keep theirs.
  lemma AliasedMasks(l: seq<Str>, name: Str, mask: Byte, other: Str)
    requires ListOk(l) && NoNul(name) && name != [] && mask != 0 && other != name
    ensures ListOk(Aliased(l, name, mask))
    ensures MaskOf(Aliased(l, name, mask), name) as bv8 == (MaskOf(l, name) as bv8) | (mask as bv8)
    ensures MaskOf(Aliased(l, name, mask), other) == MaskOf(l, other)
  {
    var k, l' := NameAt(l, name, 0), Aliased(l, name, mask);
    if k < |l| {
      OrNonzero(l[k][0], mask);
    }
    assert l'[k][1..] == name && forall i :: 0 <= i < |l| ==> l'[i][1..] == l[i][1..];
    MaskAt(l, name, k);
    MaskAt(l', name, k);
    SameMask(l, l', other);
  }

  // dba_page_alias()
  method PageAlias(page: Page, name: Str, mask: Byte)
    requires PageOk(page) && NoNul(name) && 0 < mask <= NAME_MASK
    modifies page
    ensures PageOk(page) && page.pos == old(page.pos)
    ensures page.ep == old(page.ep)[DBP_NAME := Strings(Aliased(old(page.ep)[DBP_NAME].l, name, mask))]
    ensures Assembled(old(page.ep)) ==> Assembled(page.ep)
  {
    hide OrByte, LiveFrom;
    ghost var row := page.ep;
    var entries := page.ep[DBP_NAME];
    if name == [] {
      assert page.ep == row[DBP_NAME := Strings(entries.l)];
      return;
    }
    for i := 0 to |entries.l|
      invariant page.ep == row && NameAt(entries.l, name, 0) == NameAt(entries.l, name, i)
    {
      if entries.l[i][1..] == name {
        OrNonzero(entries.l[i][0], mask);
        AliasAssembled(row, name, mask);
        page.ep := page.ep[DBP_NAME := Strings(entries.l[i := [OrByte(entries.l[i][0], mask)] + name])];
        return;
      }
    }
    AliasAssembled(row, name, mask);
    page.ep := page.ep[DBP_NAME := Strings(entries.l + [[mask] + name])];
  }

  lemma AliasAssembled(row: Row, name: Str, mask: Byte)
    requires RowOk(row) && NoNul(name) && mask != 0
    ensures Assembled(row) ==> Assembled(row[DBP_NAME := Strings(Aliased(row[DBP_NAME].l, name, mask))])
  {
    if Assembled(row) {
      AliasedApart(row[DBP_NAME].l, name, mask);
    }
  }
}
