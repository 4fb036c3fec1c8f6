// Evaluating search expressions: userland/mandoc/mansearch.c.
module ManSearch {
  import opened Bytes
  import opened Dbm
  import opened DbmQuery
  import opened Layout
  import opened OpenHash
  import opened Options
  import opened Order
  import opened SearchExpr

  const KEY_MAX: nat := 40
  const KEY_ARCH: nat := 0
  const KEY_SEC: nat := 1
  const KEY_NM: nat := 38
  const KEY_ND: nat := 39

  /*** which pages match a term *********************************************/

  // The results of the iteration for column im.
  ghost function Answers(rows: seq<Row>, ms: seq<seq<Value>>, im: nat, m: Match): seq<Res>
    requires Shaped(rows) && |ms| == MACRO_MAX && im < KEY_MAX
  {
    if im == KEY_ARCH then Hits(rows, Arch, m, 0)
    else if im == KEY_SEC then Hits(rows, Sect, m, 0)
    else if im == KEY_NM then Hits(rows, Name, m, 0)
    else if im == KEY_ND then Hits(rows, Desc, m, 0)
    else MacroHits(ms[im - 2], m, 0)
  }

  // The pages in these results.
  ghost function PagesIn(rs: seq<Res>): set<int> {
    set r | r in rs :: r.page
  }

  // The pages that match a term in one of the columns below k.
  ghost function PagesBelow(rows: seq<Row>, ms: seq<seq<Value>>, t: Term, k: nat): set<int>
    requires Shaped(rows) && |ms| == MACRO_MAX && k <= KEY_MAX
  {
    if k == 0 then {}
    else PagesBelow(rows, ms, t, k - 1) + if k - 1 in t.keys then PagesIn(Answers(rows, ms, k - 1, t.matching)) else {}
  }

  // The pages that match a term.
  ghost function TermPages(rows: seq<Row>, ms: seq<seq<Value>>): Term -> set<int>
    requires Shaped(rows) && |ms| == MACRO_MAX
  {
    (t: Term) => if Shaped(rows) && |ms| == MACRO_MAX then PagesBelow(rows, ms, t, KEY_MAX) else {}
  }

  ghost predicate InRange(rs: seq<Res>, n: nat) {
    forall i :: 0 <= i < |rs| ==> 0 <= rs[i].page < n
  }

  lemma {:induction false} MacroHitsInRange(vs: seq<Value>, m: Match, n: nat, iv: nat)
    requires TableWritten(vs, n) && iv <= |vs|
    ensures InRange(MacroHits(vs, m, iv), n)
    decreases |vs| - iv
  {
    hide LexLeq;
    if iv < |vs| {
      assert RefsWritten(vs[iv].refs, n);
      MacroHitsInRange(vs, m, n, iv + 1);
    }
  }

  // All results are pages of the database.
  lemma AnswersInRange(f: Str, rows: seq<Row>, ms: seq<seq<Value>>, im: nat, m: Match)
    requires Database(f, rows, ms) && im < KEY_MAX
    ensures Shaped(rows) && |ms| == MACRO_MAX && InRange(Answers(rows, ms, im, m), |rows|)
  {
    hide FileBytes, TableWritten, Hits, MacroHits;
    if im in {KEY_ARCH, KEY_SEC, KEY_NM, KEY_ND} {
      HitsExact(rows, Arch, m, 0);
      HitsExact(rows, Sect, m, 0);
      HitsExact(rows, Name, m, 0);
      HitsExact(rows, Desc, m, 0);
    } else {
      MacroHitsInRange(ms[im - 2], m, |rows|, 0);
    }
  }

  lemma PagesFit(f: Str, rows: seq<Row>, ms: seq<seq<Value>>, ix: Index)
    requires Database(f, rows, ms) && IndexOf(ix, f)
    ensures Shaped(rows) && |ms| == MACRO_MAX && |rows| <= MAX_PAGES
  {
    hide Database, IndexOf, At, TableBytes, TableWritten;
    PagesOpened(f, rows, ms, ix);
    TableOpened(f, rows, ms, ix, 0);
  }

  /*** an open database ****************************************************/

  // The current iteration of an open database.
  class Db {
    const f: Str
    const ix: Index
    ghost const rows: seq<Row>
    ghost const ms: seq<seq<Value>>
    const pages: PageQuery
    // the iteration over macro values, if it is the current one
    var macro: MacroQuery?

    constructor (f: Str, ix: Index, ghost rows: seq<Row>, ghost ms: seq<seq<Value>>)
      requires Database(f, rows, ms) && IndexOf(ix, f)
      ensures Valid() && fresh(pages) && macro == null && this.rows == rows && this.ms == ms
    {
      hide Database, IndexOf, PageQuery.Valid;
      this.f, this.ix, this.rows, this.ms, macro := f, ix, rows, ms, null;
      pages := new PageQuery(f, ix, rows, ms);
      PagesFit(f, rows, ms, ix);
    }

    ghost predicate Valid()
      reads this, pages, macro
    {
      && Database(f, rows, ms) && IndexOf(ix, f) && Shaped(rows) && |ms| == MACRO_MAX && |rows| <= MAX_PAGES
      && pages.Valid() && pages.rows == rows && pages.ms == ms
      && (macro != null ==> macro.Valid())
    }

    // The results that the current iteration has not given yet.
    ghost function Todo(): seq<Res>
      requires Valid()
      reads this, pages, macro
    {
      if macro == null then pages.Todo() else macro.Todo()
    }

    // Start an iteration over column im.
    method Start(im: nat, m: Match)
      requires Valid() && im < KEY_MAX
      modifies this, pages
      ensures Valid() && Todo() == Answers(rows, ms, im, m) && (macro == null || fresh(macro))
    {
      hide Database, IndexOf, TableOpen, Hits, MacroHits;
      if im == KEY_ARCH {
        macro := null;
        pages.StartByArch(m);
      } else if im == KEY_SEC {
        macro := null;
        pages.StartByTitle(Sect, m);
      } else if im == KEY_NM {
        macro := null;
        pages.StartByTitle(Name, m);
      } else if im == KEY_ND {
        macro := null;
        pages.StartByTitle(Desc, m);
      } else {
        TableOpened(f, rows, ms, ix, im - 2);
        macro := new MacroQuery(f, ix.nvals[im - 2], ix.macros[im - 2], m, ms[im - 2], |rows|);
      }
    }

    // dbm_page_next()
    method Next() returns (res: Res)
      requires Valid()
      modifies this, pages, macro
      ensures Valid() && macro == old(macro) && Gives(old(Todo()), res, Todo())
    {
      hide Database, IndexOf, TableOpen, Hits, MacroHits, PageQuery.Valid, PageQuery.Todo, MacroQuery.Valid;
      hide MacroQuery.Todo, Gives;
      if macro == null {
        res := pages.Next();
      } else {
        res := macro.Next();
      }
    }
  }

  /*** sets of pages *********************************************************/

  const MAX_PAGES: nat := 107374182

  // A page that has been found, and how good the match is.
  class PageRes {
    const page: int
    var bits: bv32

    constructor (page: int, bits: bv32)
      ensures this.page == page && this.bits == bits
    {
      this.page, this.bits := page, bits;
    }
  }

  function PageKey(r: PageRes): int {
    r.page
  }

  // The page number itself serves as the hash value.
  function PageHash(page: int): Hash {
    page % 0x1_0000_0000
  }

  type PageTable = Ohash<int, PageRes>
  type MaybeTable = Ohash?<int, PageRes>

  ghost predicate TableOk(h: PageTable, n: nat)
    reads h, h.t
  {
    && h.Valid() && h.keyOf == PageKey && h.hash == PageHash && h.deleted == 0 && n <= MAX_PAGES
    && forall k :: k in h.m ==> 0 <= k < n && h.m[k].page == k
  }

  // The table never gets too large.
  lemma Room(h: PageTable, n: nat)
    requires TableOk(h, n)
    ensures h.total < MAXUSED
  {
    hide Ohash.Valid, Used, Dels, Represents;
    assert |h.m| == |h.m.Keys|;
    SubsetSize(h.m.Keys, Below(n));
    EntryCount(h);
  }

  lemma EntryCount(h: PageTable)
    requires h.Valid()
    ensures |h.m| == h.total - h.deleted
  {
    hide Used, Dels, Represents;
  }

  // The numbers below n.
  ghost function Below(n: nat): (s: set<int>)
    ensures |s| == n && forall k :: k in s <==> 0 <= k < n
  {
    if n == 0 then {} else Below(n - 1) + {n - 1}
  }

  lemma {:induction false} SubsetSize<T>(a: set<T>, b: set<T>)
    requires a <= b
    ensures |a| <= |b|
  {
    if a != {} {
      var x :| x in a;
      SubsetSize(a - {x}, b - {x});
    }
  }

  method NewTable(ghost n: nat) returns (h: PageTable)
    requires n <= MAX_PAGES
    ensures fresh(h) && fresh(h.t) && TableOk(h, n) && h.m == map[]
  {
    h := new Ohash(4, PageKey, PageHash);
  }

  function Bits32(x: int): bv32 {
    (x % 0x1_0000_0000) as bv32
  }

  // Enter one result, or add its bits to those of the page.
  method AddPage(h: PageTable, ghost n: nat, res: Res)
    requires TableOk(h, n) && 0 <= res.page < n
    modifies h, h.t, h.m.Values`bits
    ensures TableOk(h, n) && (h.t == old(h.t) || fresh(h.t)) && h.m.Keys == old(h.m).Keys + {res.page}
    ensures forall r :: r in h.m.Values ==> r in old(h.m).Values || fresh(r)
  {
    hide Ohash.Valid, Ohash.Ready;
    Room(h, n);
    var slot := h.Lookup(res.page, PageHash(res.page));
    var rp := h.Find(slot);
    if rp.Some? {
      rp.value.bits := rp.value.bits | Bits32(res.bits);
    } else {
      var r := new PageRes(res.page, Bits32(res.bits));
      h.Insert(slot, r);
    }
  }

  // Enter the next result of the current iteration, if there is one.
  method AddNext(h: PageTable, db: Db) returns (more: bool)
    requires db.Valid() && TableOk(h, |db.rows|) && InRange(db.Todo(), |db.rows|)
    modifies db, db.pages, db.macro, h, h.t, h.m.Values`bits
    ensures db.Valid() && db.macro == old(db.macro)
    ensures TableOk(h, |db.rows|) && (h.t == old(h.t) || fresh(h.t))
    ensures more == (old(db.Todo()) != [])
    ensures more ==> db.Todo() == old(db.Todo())[1..] && h.m.Keys == old(h.m.Keys) + {old(db.Todo())[0].page}
    ensures !more ==> h.m == old(h.m) && db.Todo() == []
    ensures forall r :: r in h.m.Values ==> r in old(h.m).Values || fresh(r)
  {
    hide TableOk, Db.Valid, Db.Todo;
    ghost var n := |db.rows|;
    var res := db.Next();
    more := res.page != -1;
    if more {
      AddPage(h, n, res);
    }
  }

  // Enter all results of the current iteration.
  method AddAll(h: PageTable, db: Db)
    requires db.Valid() && TableOk(h, |db.rows|) && InRange(db.Todo(), |db.rows|)
    modifies db, db.pages, db.macro, h, h.t, h.m.Values`bits
    ensures db.Valid() && db.macro == old(db.macro)
    ensures TableOk(h, |db.rows|) && (h.t == old(h.t) || fresh(h.t))
    ensures h.m.Keys == old(h.m.Keys) + PagesIn(old(db.Todo()))
    ensures forall r :: r in h.m.Values ==> r in old(h.m).Values || fresh(r)
  {
    hide TableOk, Db.Valid, Db.Todo, InRange, PagesIn;
    ghost var rest, all, n := db.Todo(), h.m.Keys + PagesIn(db.Todo()), |db.rows|;
    var more := true;
    while more
      invariant db.Valid() && db.macro == old(db.macro) && db.Todo() == rest && InRange(rest, n) && (more || rest == [])
      invariant TableOk(h, n) && (h.t == old(h.t) || fresh(h.t)) && h.m.Keys + PagesIn(rest) == all
      invariant forall r :: r in h.m.Values ==> r in old(h.m).Values || fresh(r)
      decreases |rest|, more
    {
      ghost var keys := h.m.Keys;
      more := AddNext(h, db);
      if more {
        FirstResult(rest, n, keys);
        rest := rest[1..];
      }
    }
    NoPages(h.m.Keys);
  }

  lemma NoPages(keys: set<int>)
    ensures keys + PagesIn([]) == keys
  {
  }

  lemma FirstResult(rest: seq<Res>, n: nat, keys: set<int>)
    requires rest != [] && InRange(rest, n)
    ensures InRange(rest[1..], n) && keys + {rest[0].page} + PagesIn(rest[1..]) == keys + PagesIn(rest)
  {
    assert rest == [rest[0]] + rest[1..];
    assert rest[0] in rest;
  }

  /*** evaluation **********************************************************/

  ghost function KeysOf(h: MaybeTable): set<int>
    reads h
  {
    if h == null then {} else h.m.Keys
  }

  // What evaluating an expression does to the table passed in, if any.
  ghost predicate Usable(h: MaybeTable, n: nat)
    reads h, if h == null then {} else {h.t}
  {
    h != null ==> TableOk(h, n)
  }

  // manmerge_term()
  method MergeTerm(t: Term, htab: MaybeTable, db: Db) returns (h: PageTable)
    requires db.Valid() && Usable(htab, |db.rows|)
    modifies db, db.pages, db.macro
    modifies htab, if htab == null then {} else {htab.t}, (if htab == null then {} else htab.m.Values)`bits
    ensures db.Valid() && (db.macro == old(db.macro) || db.macro == null || fresh(db.macro))
    ensures TableOk(h, |db.rows|) && (if htab == null then fresh(h) else h == htab)
            && (htab == null || h.t != old(htab.t) ==> fresh(h.t))
    ensures h.m.Keys == old(KeysOf(htab)) + PagesBelow(db.rows, db.ms, t, KEY_MAX)
    ensures forall r :: r in h.m.Values ==> (htab != null && r in old(htab.m).Values) || fresh(r)
  {
    hide TableOk, Db.Valid, Db.Todo, InRange, PagesIn, Answers;
    ghost var n, keys := |db.rows|, KeysOf(htab);
    DbFacts(db);
    if htab == null {
      h := NewTable(n);
    } else {
      h := htab;
    }
    for im := 0 to KEY_MAX
      invariant db.Valid() && (db.macro == old(db.macro) || db.macro == null || fresh(db.macro))
      invariant TableOk(h, n) && (htab == null || h.t != old(htab.t) ==> fresh(h.t))
      invariant h.m.Keys == keys + PagesBelow(db.rows, db.ms, t, im)
      invariant forall r :: r in h.m.Values ==> (htab != null && r in old(htab.m).Values) || fresh(r)
    {
      if im in t.keys {
        DbAnswers(db, im, t.matching);
        db.Start(im, t.matching);
        AddAll(h, db);
      }
    }
  }

  lemma DbFacts(db: Db)
    requires db.Valid()
    ensures |db.rows| <= MAX_PAGES && Shaped(db.rows) && |db.ms| == MACRO_MAX
  {
    hide Database, IndexOf, PageQuery.Valid, MacroQuery.Valid;
  }

  lemma DbAnswers(db: Db, im: nat, m: Match)
    requires db.Valid() && im < KEY_MAX
    ensures Shaped(db.rows) && |db.ms| == MACRO_MAX && InRange(Answers(db.rows, db.ms, im, m), |db.rows|)
  {
    hide Database, IndexOf, PageQuery.Valid, MacroQuery.Valid;
    AnswersInRange(db.f, db.rows, db.ms, im, m);
  }

  // These are the pages selected, besides those that were there before.
  ghost predicate PagesAre(keys: set<int>, before: set<int>, e: Tree, found: Term -> set<int>) {
    forall p :: p in keys <==> p in before || Selects(e, p, found)
  }

  ghost predicate AnyAre(keys: set<int>, before: set<int>, ks: seq<Tree>, found: Term -> set<int>) {
    forall p :: p in keys <==> p in before || AnySelects(ks, p, found)
  }

  ghost predicate AllAre(keys: set<int>, ks: seq<Tree>, found: Term -> set<int>) {
    forall p :: p in keys <==> AllSelect(ks, p, found)
  }

  lemma AnyStart(keys: set<int>, found: Term -> set<int>)
    ensures AnyAre(keys, keys, [], found)
  {
  }

  lemma AnyNext(keys: set<int>, before: set<int>, keys': set<int>, ks: seq<Tree>, j: nat, found: Term -> set<int>)
    requires j < |ks| && AnyAre(keys, before, ks[..j], found) && PagesAre(keys', keys, ks[j], found)
    ensures AnyAre(keys', before, ks[..j + 1], found)
  {
    hide AnySelects, Selects;
    assert ks[..j + 1] == ks[..j] + [ks[j]];
    forall p
      ensures p in keys' <==> p in before || AnySelects(ks[..j + 1], p, found)
    {
      Combined(ks[..j], [ks[j]], p, found);
      OnePart(ks[j], p, found);
    }
  }

  lemma AnyDone(keys: set<int>, before: set<int>, ks: seq<Tree>, found: Term -> set<int>)
    requires AnyAre(keys, before, ks, found)
    ensures PagesAre(keys, before, Or(ks), found)
  {
    hide AnySelects, Selects;
    forall p
      ensures p in keys <==> p in before || Selects(Or(ks), p, found)
    {
      SelectsIs(ks, p, found);
    }
  }

  lemma AllStart(keys: set<int>, k: Tree, found: Term -> set<int>)
    requires PagesAre(keys, {}, k, found)
    ensures AllAre(keys, [k], found)
  {
    hide AllSelect, Selects;
    forall p
      ensures p in keys <==> AllSelect([k], p, found)
    {
      OnePart(k, p, found);
    }
  }

  lemma AllNext(keys: set<int>, more: set<int>, ks: seq<Tree>, j: nat, found: Term -> set<int>)
    requires j < |ks| && AllAre(keys, ks[..j], found) && PagesAre(more, {}, ks[j], found)
    ensures AllAre(keys * more, ks[..j + 1], found)
  {
    hide AllSelect, Selects;
    assert ks[..j + 1] == ks[..j] + [ks[j]];
    forall p
      ensures p in keys * more <==> AllSelect(ks[..j + 1], p, found)
    {
      Combined(ks[..j], [ks[j]], p, found);
      OnePart(ks[j], p, found);
    }
  }

  lemma AllDone(keys: set<int>, before: set<int>, ks: seq<Tree>, found: Term -> set<int>)
    requires AllAre(keys, ks, found)
    ensures PagesAre(keys + before, before, And(ks), found)
    ensures before == {} ==> keys + before == keys
  {
    hide AllSelect, Selects;
    forall p
      ensures p in keys + before <==> p in before || Selects(And(ks), p, found)
    {
      SelectsIs(ks, p, found);
    }
  }

  // The pages of the first k of these results.
  ghost function Pages(all: seq<PageRes>, k: nat): set<int>
    requires k <= |all|
  {
    set i | 0 <= i < k :: all[i].page
  }

  lemma Listed(h: PageTable, n: nat)
    requires TableOk(h, n)
    ensures n <= MAX_PAGES
    ensures
      var all := Listing(h.t[..], 0);
      && Pages(all, |all|) == h.m.Keys
      && (forall x {:trigger all[x]} :: 0 <= x < |all| ==>
         0 <= all[x].page < n && all[x].page in h.m && h.m[all[x].page] == all[x])
      && (forall x, y :: 0 <= x < y < |all| ==> all[x].page != all[y].page)
  {
    hide Ohash.Valid, Listing;
    h.EnumeratesOnce();
    var all := Listing(h.t[..], 0);
    assert forall x :: 0 <= x < |all| ==> h.keyOf(all[x]) == all[x].page;
    forall k | k in h.m
      ensures k in Pages(all, |all|)
    {
      assert h.m[k] in all;
    }
  }

  lemma PagesNext(all: seq<PageRes>, k: nat)
    requires k < |all| && forall x, y :: 0 <= x < y < |all| ==> all[x].page != all[y].page
    ensures Pages(all, k + 1) == Pages(all, k) + {all[k].page} && all[k].page !in Pages(all, k)
  {
  }

  // Is the page in the table?
  method Contains(h: PageTable, ghost n: nat, page: int) returns (found: bool)
    requires TableOk(h, n)
    modifies h`loc, h.t
    ensures TableOk(h, n) && h.m == old(h.m) && found == (page in h.m)
  {
    hide Ohash.Valid, Ohash.Ready;
    var slot := h.Lookup(page, PageHash(page));
    var rp := h.Find(slot);
    found := rp.Some?;
  }

  // Enter a result for a page that is not in the table.
  method Put(h: PageTable, ghost n: nat, res: PageRes)
    requires TableOk(h, n) && 0 <= res.page < n && res.page !in h.m
    modifies h, h.t
    ensures TableOk(h, n) && (h.t == old(h.t) || fresh(h.t)) && h.m == old(h.m)[res.page := res]
  {
    hide Ohash.Valid, Ohash.Ready;
    Room(h, n);
    var slot := h.Lookup(res.page, PageHash(res.page));
    h.Insert(slot, res);
  }

  // Are there less pages in h2 than in h1?
  method Fewer(h2: PageTable, h1: PageTable, ghost n: nat) returns (r: bool)
    requires TableOk(h1, n) && TableOk(h2, n)
  {
    hide Ohash.Valid;
    var n2 := h2.Entries();
    var n1 := h1.Entries();
    r := n2 < n1;
  }

  // The pages that are in both tables.
  method Intersect(h1: PageTable, h2: PageTable, ghost n: nat) returns (hand: PageTable)
    requires TableOk(h1, n) && TableOk(h2, n) && h1 != h2 && h1.t != h2.t
    modifies h2`loc, h2.t
    ensures fresh(hand) && fresh(hand.t) && TableOk(hand, n) && hand.m.Keys == h1.m.Keys * h2.m.Keys
    ensures forall r :: r in hand.m.Values ==> r in old(h1.m).Values
  {
    hide TableOk, Listing, Enumerating, Pages;
    Listed(h1, n);
    hand := NewTable(n);
    ghost var all, k: nat := Listing(h1.t[..], 0), 0;
    var res, pos := Begin(h1, n);
    PagesNone(all);
    while res.Some?
      invariant k <= |all| && res == (if k < |all| then Some(all[k]) else None)
      invariant TableOk(h1, n) && h1.m == old(h1.m) && Enumerating(h1, all, k, pos) && TableOk(h2, n)
                && h2.m == old(h2.m)
      invariant fresh(hand) && fresh(hand.t) && TableOk(hand, n) && hand.m.Keys == Pages(all, k) * h2.m.Keys
      invariant forall r :: r in hand.m.Values ==> r in old(h1.m).Values
      decreases |all| - k
    {
      PagesNext(all, k);
      assert all[k].page in h1.m && h1.m[all[k].page] == all[k];
      var both := Contains(h2, n, res.value.page);
      if both {
        Put(hand, n, res.value);
      }
      res, pos := Advance(h1, n, pos, all, k);
      k := k + 1;
    }
  }

  lemma PagesNone(all: seq<PageRes>)
    ensures Pages(all, 0) == {}
  {
  }

  method Begin(h: PageTable, ghost n: nat) returns (r: Option<PageRes>, pos: nat)
    requires TableOk(h, n)
    ensures
      var all := Listing(h.t[..], 0);
      Enumerating(h, all, 0, pos) && r == if all == [] then None else Some(all[0])
  {
    hide Ohash.Valid, Listing, Enumerating;
    r, pos := FirstEntry(h);
  }

  method Advance(h: PageTable, ghost n: nat, pos: nat, ghost all: seq<PageRes>,
      ghost k: nat) returns (r: Option<PageRes>, pos': nat)
    requires TableOk(h, n) && Enumerating(h, all, k, pos) && k < |all|
    ensures Enumerating(h, all, k + 1, pos') && r == if k + 1 < |all| then Some(all[k + 1]) else None
  {
    hide Ohash.Valid, Listing, Enumerating;
    r, pos' := NextEntry(h, pos, all, k);
  }

  // Enter all pages of one table into another one, unless they are there.
  method Unite(htab: PageTable, hand: PageTable, ghost n: nat)
    requires TableOk(htab, n) && TableOk(hand, n) && htab != hand && htab.t != hand.t
    modifies htab, htab.t
    ensures TableOk(htab, n) && (htab.t == old(htab.t) || fresh(htab.t))
    ensures htab.m.Keys == old(htab.m).Keys + hand.m.Keys
    ensures forall r :: r in htab.m.Values ==> r in old(htab.m).Values || r in hand.m.Values
  {
    hide TableOk, Listing, Enumerating, Pages;
    Listed(hand, n);
    ghost var all, k: nat := Listing(hand.t[..], 0), 0;
    var res, pos := Begin(hand, n);
    PagesNone(all);
    while res.Some?
      invariant k <= |all| && res == (if k < |all| then Some(all[k]) else None)
      invariant TableOk(hand, n) && hand.m == old(hand.m) && Enumerating(hand, all, k, pos) && hand.t != htab.t
      invariant TableOk(htab, n) && (htab.t == old(htab.t) || fresh(htab.t))
      invariant htab.m.Keys == old(htab.m).Keys + Pages(all, k)
      invariant forall r :: r in htab.m.Values ==> r in old(htab.m).Values || r in hand.m.Values
      decreases |all| - k
    {
      PagesNext(all, k);
      assert all[k].page in hand.m && hand.m[all[k].page] == all[k];
      var known := Contains(htab, n, res.value.page);
      if !known {
        Put(htab, n, res.value);
      }
      res, pos := Advance(hand, n, pos, all, k);
      k := k + 1;
    }
  }

  // The children of a group, in order.
  lemma Children(e: Expr)
    requires e.Valid() && !e.kind.TermNode?
    ensures |e.kids| > 0 && e.child == e.kids[0] && !e.tree.Leaf? && |e.tree.kids| == |e.kids|
    ensures e.tree == if e.kind.OrNode? then Or(e.tree.kids) else And(e.tree.kids)
    ensures forall i :: 0 <= i < |e.kids| ==>
              e.kids[i].Valid() && e.kids[i].repr < e.repr && e.kids[i].tree == e.tree.kids[i]
  {
    hide Expr.Valid;
    Opened(e);
  }

  lemma Sibling(e: Expr, i: nat)
    requires e.Valid() && i < |e.kids|
    ensures e.kids[i].next == if i + 1 < |e.kids| then e.kids[i + 1] else null
  {
    hide Expr.Valid;
    Opened(e);
  }

  // manmerge(): the pages for e go into htab if it is given.
  method Merge(e: Expr, htab: MaybeTable, db: Db) returns (h: PageTable)
    requires e.Valid() && db.Valid() && Usable(htab, |db.rows|)
    modifies db, db.pages, db.macro
    modifies htab, if htab == null then {} else {htab.t}, (if htab == null then {} else htab.m.Values)`bits
    ensures db.Valid() && (db.macro == old(db.macro) || db.macro == null || fresh(db.macro))
    ensures TableOk(h, |db.rows|) && (if htab == null then fresh(h) else h == htab)
            && (htab == null || h.t != old(htab.t) ==> fresh(h.t))
    ensures Shaped(db.rows) && |db.ms| == MACRO_MAX
    ensures PagesAre(h.m.Keys, old(KeysOf(htab)), e.tree, TermPages(db.rows, db.ms))
    ensures forall r :: r in h.m.Values ==> (htab != null && r in old(htab.m).Values) || fresh(r)
    decreases e.repr, 2
  {
    hide TableOk, Db.Valid, Expr.Valid, PagesBelow;
    DbFacts(db);
    Opened(e);
    match e.kind
    case TermNode =>
      h := MergeTerm(e.term.value, htab, db);
    case OrNode =>
      h := MergeOr(e, htab, db);
    case AndNode =>
      h := MergeAnd(e, htab, db);
  }

  method MergeOr(e: Expr, htab: MaybeTable, db: Db) returns (h: PageTable)
    requires e.Valid() && e.kind.OrNode? && db.Valid() && Usable(htab, |db.rows|)
    modifies db, db.pages, db.macro
    modifies htab, if htab == null then {} else {htab.t}, (if htab == null then {} else htab.m.Values)`bits
    ensures db.Valid() && (db.macro == old(db.macro) || db.macro == null || fresh(db.macro))
    ensures TableOk(h, |db.rows|) && (if htab == null then fresh(h) else h == htab)
            && (htab == null || h.t != old(htab.t) ==> fresh(h.t))
    ensures Shaped(db.rows) && |db.ms| == MACRO_MAX
    ensures PagesAre(h.m.Keys, old(KeysOf(htab)), e.tree, TermPages(db.rows, db.ms))
    ensures forall r :: r in h.m.Values ==> (htab != null && r in old(htab.m).Values) || fresh(r)
    decreases e.repr, 0
  {
    hide TableOk, Db.Valid, Expr.Valid, Expr.Shape, PagesBelow, PagesAre, AnyAre;
    DbFacts(db);
    Children(e);
    ghost var ks, found, keys, j: nat, n := e.tree.kids, TermPages(db.rows, db.ms), KeysOf(htab), 0, |db.rows|;
    var table: MaybeTable := htab;
    var x := e.child;
    AnyStart(keys, found);
    while x != null
      invariant j <= |ks| == |e.kids| && x == (if j < |ks| then e.kids[j] else null)
      invariant e.Valid() && e.kind.OrNode? && e.tree == Or(ks)
      invariant db.Valid() && (db.macro == old(db.macro) || db.macro == null || fresh(db.macro))
      invariant Usable(table, n) && (if htab == null then table == null || (fresh(table) && fresh(table.t))
                else table == htab)
      invariant htab != null && table.t != old(htab.t) ==> fresh(table.t)
      invariant AnyAre(KeysOf(table), keys, ks[..j], found) && (j > 0 ==> table != null)
      invariant table != null ==> forall r :: r in table.m.Values ==>
                (htab != null && r in old(htab.m).Values) || fresh(r)
      decreases |ks| - j
    {
      ghost var before := KeysOf(table);
      Children(e);
      table := Merge(x, table, db);
      AnyNext(before, keys, KeysOf(table), ks, j, found);
      Sibling(e, j);
      x := x.next;
      j := j + 1;
    }
    assert ks[..j] == ks;
    AnyDone(KeysOf(table), keys, ks, found);
    h := table;
  }

  // One more operand of an AND: only its pages stay.
  method AndNext(hand: PageTable, x: Expr, db: Db) returns (both: PageTable, ghost more: set<int>)
    requires x.Valid() && db.Valid() && TableOk(hand, |db.rows|)
    modifies db, db.pages, db.macro, hand`loc, hand.t
    ensures db.Valid() && (db.macro == old(db.macro) || db.macro == null || fresh(db.macro))
    ensures Shaped(db.rows) && |db.ms| == MACRO_MAX
    ensures fresh(both) && fresh(both.t) && TableOk(both, |db.rows|)
    ensures PagesAre(more, {}, x.tree, TermPages(db.rows, db.ms)) && both.m.Keys == old(hand.m).Keys * more
    ensures forall r :: r in both.m.Values ==> r in old(hand.m).Values || fresh(r)
    decreases x.repr, 3
  {
    hide TableOk, Db.Valid, Expr.Valid, Expr.Shape, PagesAre;
    ghost var n := |db.rows|;
    var h2 := Merge(x, null, db);
    more := h2.m.Keys;
    assert more * hand.m.Keys == hand.m.Keys * more;
    var fewer := Fewer(h2, hand, n);
    if fewer {
      both := Intersect(h2, hand, n);
    } else {
      both := Intersect(hand, h2, n);
    }
  }

  // Evaluate all operands of an AND.
  method AndAll(e: Expr, db: Db) returns (hand: PageTable)
    requires e.Valid() && e.kind.AndNode? && db.Valid()
    modifies db, db.pages, db.macro
    ensures db.Valid() && (db.macro == old(db.macro) || db.macro == null || fresh(db.macro))
    ensures fresh(hand) && fresh(hand.t) && TableOk(hand, |db.rows|) && (forall r :: r in hand.m.Values ==> fresh(r))
    ensures Shaped(db.rows) && |db.ms| == MACRO_MAX
    ensures e.tree.And? && AllAre(hand.m.Keys, e.tree.kids, TermPages(db.rows, db.ms))
    decreases e.repr, 0
  {
    hide TableOk, Db.Valid, Expr.Valid, Expr.Shape, PagesBelow, PagesAre, AllAre;
    DbFacts(db);
    Children(e);
    ghost var ks, found, j: nat, n := e.tree.kids, TermPages(db.rows, db.ms), 1, |db.rows|;
    var x := e.child;
    hand := Merge(x, null, db);
    AllStart(hand.m.Keys, ks[0], found);
    assert ks[..1] == [ks[0]];
    Sibling(e, 0);
    x := x.next;
    while x != null
      invariant 0 < j <= |ks| == |e.kids| && x == (if j < |ks| then e.kids[j] else null)
      invariant e.Valid() && e.kind.AndNode? && e.tree == And(ks)
      invariant db.Valid() && (db.macro == old(db.macro) || db.macro == null || fresh(db.macro))
      invariant fresh(hand) && fresh(hand.t) && TableOk(hand, n) && (forall r :: r in hand.m.Values ==> fresh(r))
      invariant AllAre(hand.m.Keys, ks[..j], found)
      decreases |ks| - j
    {
      Children(e);
      ghost var keys, more := hand.m.Keys, {};
      hand, more := AndNext(hand, x, db);
      AllNext(keys, more, ks, j, found);
      Sibling(e, j);
      x := x.next;
      j := j + 1;
    }
    assert ks[..j] == ks;
  }

  method MergeAnd(e: Expr, htab: MaybeTable, db: Db) returns (h: PageTable)
    requires e.Valid() && e.kind.AndNode? && db.Valid() && Usable(htab, |db.rows|)
    modifies db, db.pages, db.macro
    modifies htab, if htab == null then {} else {htab.t}, (if htab == null then {} else htab.m.Values)`bits
    ensures db.Valid() && (db.macro == old(db.macro) || db.macro == null || fresh(db.macro))
    ensures TableOk(h, |db.rows|) && (if htab == null then fresh(h) else h == htab)
            && (htab == null || h.t != old(htab.t) ==> fresh(h.t))
    ensures Shaped(db.rows) && |db.ms| == MACRO_MAX
    ensures PagesAre(h.m.Keys, old(KeysOf(htab)), e.tree, TermPages(db.rows, db.ms))
    ensures forall r :: r in h.m.Values ==> (htab != null && r in old(htab.m).Values) || fresh(r)
    decreases e.repr, 1
  {
    hide TableOk, Db.Valid, Expr.Valid, Expr.Shape, PagesBelow, PagesAre, AllAre;
    Children(e);
    var hand := AndAll(e, db);
    ghost var keys := KeysOf(htab);
    AllDone(hand.m.Keys, keys, e.tree.kids, TermPages(db.rows, db.ms));
    assert keys + hand.m.Keys == hand.m.Keys + keys;
    if htab == null {
      return hand;
    }
    Unite(htab, hand, |db.rows|);
    h := htab;
  }

  // Look for all pages that the arguments describe, as mansearch() does for
  // each database.
  method Search(ts: seq<Token>, c: Compiler, db: Db) returns (h: MaybeTable)
    requires db.Valid()
    modifies db, db.pages, db.macro
    ensures db.Valid() && Shaped(db.rows) && |db.ms| == MACRO_MAX
    ensures h == null <==> Parse(ts, c).None?
    ensures h != null ==> PagesAre(h.m.Keys, {}, Parse(ts, c).value, TermPages(db.rows, db.ms))
  {
    hide TableOk, Db.Valid, Expr.Valid, Expr.Shape, PagesBelow, PagesAre, OrTree, Groups;
    DbFacts(db);
    var e, _ := ExprComp(ts, c, 0);
    if e == null {
      return null;
    }
    h := Merge(e, null, db);
  }

  /*** what it means that a page matches a term ******************************/

  // Page p has a matching entry in column im.
  ghost predicate HasMatch(rows: seq<Row>, ms: seq<seq<Value>>, p: nat, im: nat, m: Match)
    requires Shaped(rows) && |ms| == MACRO_MAX && im < KEY_MAX && p < |rows|
  {
    if im == KEY_ARCH then Matches(rows[p], Arch, m)
    else if im == KEY_SEC then Matches(rows[p], Sect, m)
    else if im == KEY_NM then Matches(rows[p], Name, m)
    else if im == KEY_ND then Matches(rows[p], Desc, m)
    else HasValue(ms[im - 2], p, m)
  }

  // Page p is listed with a matching value.
  ghost predicate HasValue(vs: seq<Value>, p: nat, m: Match) {
    exists i :: 0 <= i < |vs| && m(vs[i].key) && PageAddr(p) in vs[i].refs
  }

  lemma HitsPages(rows: seq<Row>, it: Iter, m: Match, p: nat)
    requires Shaped(rows) && p < |rows|
    ensures p in PagesIn(Hits(rows, it, m, 0)) <==> Matches(rows[p], it, m)
  {
    hide Hits, Matches, RowShape;
    HitsExact(rows, it, m, 0);
    var hits := Hits(rows, it, m, 0);
    if Matches(rows[p], it, m) {
      var x :| 0 <= x < |hits| && hits[x].page == p;
      assert hits[x] in hits;
    }
  }

  lemma {:induction false} MacroPages(vs: seq<Value>, n: nat, m: Match, p: nat, iv: nat)
    requires TableWritten(vs, n) && p < n && iv <= |vs|
    ensures p in PagesIn(MacroHits(vs, m, iv)) <==>
              exists i :: iv <= i < |vs| && m(vs[i].key) && PageAddr(p) in vs[i].refs
    decreases |vs| - iv
  {
    hide LexLeq, RefsWritten, PagesOf, PageAddr;
    if iv < |vs| {
      MacroPages(vs, n, m, p, iv + 1);
      ListedWith(vs[iv].refs, n, p);
      PagesUnion(if m(vs[iv].key) then PagesOf(vs[iv].refs, 0) else [], MacroHits(vs, m, iv + 1));
      BitsZero(vs[iv].refs, p);
    }
  }

  lemma PagesUnion(a: seq<Res>, b: seq<Res>)
    ensures PagesIn(a + b) == PagesIn(a) + PagesIn(b)
  {
  }

  lemma BitsZero(refs: seq<nat>, p: nat)
    ensures p in PagesIn(PagesOf(refs, 0)) <==> Res(p, 0) in PagesOf(refs, 0)
  {
  }

  // A page is selected by a term exactly if it has a matching entry in one
  // of the columns of the term.
  lemma {:induction false} TermExact(f: Str, rows: seq<Row>, ms: seq<seq<Value>>, t: Term, p: nat, k: nat)
    requires Database(f, rows, ms) && k <= KEY_MAX
    ensures Shaped(rows) && |ms| == MACRO_MAX
    ensures p < |rows| ==>
              (p in PagesBelow(rows, ms, t, k) <==>
                  exists im :: 0 <= im < k && im in t.keys && HasMatch(rows, ms, p, im, t.matching))
  {
    hide FileBytes, TableWritten, Hits, MacroHits, PagesIn, Matches, Shaped;
    DatabaseShaped(f, rows, ms);
    if k > 0 && p < |rows| {
      TermExact(f, rows, ms, t, p, k - 1);
      ColumnExact(f, rows, ms, t.matching, p, k - 1);
      hide Answers, HasMatch;
    }
  }

  lemma ColumnExact(f: Str, rows: seq<Row>, ms: seq<seq<Value>>, m: Match, p: nat, im: nat)
    requires Database(f, rows, ms) && im < KEY_MAX && p < |rows|
    ensures Shaped(rows) && |ms| == MACRO_MAX
    ensures p in PagesIn(Answers(rows, ms, im, m)) <==> HasMatch(rows, ms, p, im, m)
  {
    hide FileBytes, TableWritten, Hits, MacroHits, PagesIn, Matches, Shaped;
    DatabaseShaped(f, rows, ms);
    if im == KEY_ARCH {
      HitsPages(rows, Arch, m, p);
    } else if im == KEY_SEC {
      HitsPages(rows, Sect, m, p);
    } else if im == KEY_NM {
      HitsPages(rows, Name, m, p);
    } else if im == KEY_ND {
      HitsPages(rows, Desc, m, p);
    } else {
      MacroPages(ms[im - 2], |rows|, m, p, 0);
    }
  }
}
