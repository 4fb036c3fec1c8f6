// The stack of open tags of the HTML formatter: userland/mandoc/html.c.
module HtmlTags {
  import opened Options

  datatype Kind =
    | Html | Head | Meta | Link | Style | Title | Body | Div | Section | Table | Tr | Td | Li | Ul | Ol | Dl | Dt | Dd
    | H1 | H2 | P | Pre | A | B | Cite | Code | I | Small | Span | Var | Br | Hr | Mark
    | Math | Mrow | Mi | Mn | Mo | Msup | Msub | Msubsup | Mfrac | Msqrt | Mfenced | Mtable | Mtr | Mtd
    | Munderover | Munder | Mover

  // The element can appear in phrasing context.
  predicate InPhrase(k: Kind) {
    k in {A, B, Cite, Code, I, Small, Span, Var, Br, Hr, Mark, Math}
  }

  // The element establishes phrasing context.
  predicate ToPhrase(k: Kind) {
    k in {H1, H2, P, Pre, A, B, Cite, Code, I, Small, Span, Var}
  }

  // The element does not have an end tag.
  predicate NoStack(k: Kind) {
    k in {Meta, Link, Br, Hr}
  }

  predicate Indented(k: Kind) {
    k in {Head, Style, Table, Tr, Li, Ul, Ol, Dl, Dd, P, Math}
  }

  predicate NotIndented(k: Kind) {
    k == Pre
  }

  /*** what is written ********************************************************/

  datatype Event = Start(k: Kind) | End(k: Kind) | Empty(k: Kind) | Text

  // The elements left open by this output, the innermost one first, provided
  // that every end tag ends the innermost open element.
  function Replay(out: seq<Event>): Option<seq<Kind>> {
    if out == [] then Some([])
    else
      var s := Replay(out[..|out| - 1]);
      var e := out[|out| - 1];
      if s.None? then None
      else if e.Start? then Some([e.k] + s.value)
      else if e.End? then
        if s.value != [] && s.value[0] == e.k then Some(s.value[1..]) else None
      else s
  }

  lemma ReplayNext(out: seq<Event>, e: Event, s: seq<Kind>)
    requires Replay(out) == Some(s)
    ensures e.Start? ==> Replay(out + [e]) == Some([e.k] + s)
    ensures e.End? && s != [] && s[0] == e.k ==> Replay(out + [e]) == Some(s[1..])
    ensures !e.Start? && !e.End? ==> Replay(out + [e]) == Some(s)
  {
    assert (out + [e])[..|out|] == out;
  }

  function Count(ks: seq<Kind>, counts: Kind -> bool): nat {
    if ks == [] then 0 else (if counts(ks[0]) then 1 else 0) + Count(ks[1..], counts)
  }

  /*** tags *******************************************************************/

  class Tag {
    const tag: Kind
    const next: Tag?
    ghost const below: seq<Tag>
    var refcnt: nat
    var closed: bool
    ghost var freed: bool

    constructor (tag: Kind, next: Tag?)
      ensures this.tag == tag && this.next == next && below == ListOf(next)
      ensures refcnt == 0 && !closed && !freed
    {
      this.tag, this.next, below := tag, next, ListOf(next);
      refcnt, closed, freed := 0, false, false;
    }
  }

  // The tags of a list.
  ghost function ListOf(t: Tag?): seq<Tag> {
    if t == null then [] else [t] + t.below
  }

  ghost predicate Chain(ts: seq<Tag>) {
    forall i {:trigger ts[i]} :: 0 <= i < |ts| ==> ts[i].below == ts[i + 1..] && ts[i].next == FirstOf(ts[i + 1..])
  }

  ghost function FirstOf(ts: seq<Tag>): Tag? {
    if ts == [] then null else ts[0]
  }

  lemma ChainSuffix(ts: seq<Tag>, i: nat)
    requires Chain(ts) && i <= |ts|
    ensures Chain(ts[i..]) && ListOf(FirstOf(ts[i..])) == ts[i..]
    ensures forall j :: 0 <= j < |ts| && j != i && i < |ts| ==> ts[j] != ts[i]
  {
    var r := ts[i..];
    forall j | 0 <= j < |r|
      ensures r[j].below == r[j + 1..] && r[j].next == FirstOf(r[j + 1..])
    {
      var x := i + j;
      assert r[j] == ts[x] && r[j + 1..] == ts[x + 1..];
    }
    forall j | 0 <= j < |ts| && j != i && i < |ts|
      ensures ts[j] != ts[i]
    {
      assert |ts[j].below| == |ts| - j - 1;
    }
  }

  ghost function Kinds(ts: seq<Tag>): (ks: seq<Kind>)
    ensures |ks| == |ts| && forall i :: 0 <= i < |ts| ==> ks[i] == ts[i].tag
  {
    seq(|ts|, i requires 0 <= i < |ts| => ts[i].tag)
  }

  ghost function Flags(ts: seq<Tag>): (cl: seq<bool>)
    reads ts`closed
    ensures |cl| == |ts| && forall i :: 0 <= i < |ts| ==> cl[i] == ts[i].closed
  {
    if ts == [] then [] else Flags(ts[..|ts| - 1]) + [ts[|ts| - 1].closed]
  }

  // How often each tag is referred to.
  ghost function Counts(ts: seq<Tag>): (rs: seq<nat>)
    reads ts`refcnt
    ensures |rs| == |ts| && forall i :: 0 <= i < |ts| ==> rs[i] == ts[i].refcnt
  {
    if ts == [] then [] else Counts(ts[..|ts| - 1]) + [ts[|ts| - 1].refcnt]
  }

  // When the first p tags are closed one after the other, the last one
  // without references takes all tags on top of it off the stack.
  function Cut(rs: seq<nat>, p: nat): (c: nat)
    requires p <= |rs|
    ensures c <= p
  {
    if p == 0 then 0 else if rs[p - 1] == 0 then p else Cut(rs, p - 1)
  }

  // The closed tags when the first p have been closed as well.
  function ClosedTo(cl: seq<bool>, p: nat): (r: seq<bool>)
    requires p <= |cl|
    ensures |r| == |cl| && forall i :: 0 <= i < |cl| ==> r[i] == (i < p || cl[i])
  {
    seq(|cl|, i requires 0 <= i < |cl| => i < p || cl[i])
  }

  // The elements that are not closed yet.
  ghost function Unclosed(ks: seq<Kind>, cl: seq<bool>): seq<Kind>
    requires |ks| == |cl|
  {
    if ks == [] then [] else (if cl[0] then [] else [ks[0]]) + Unclosed(ks[1..], cl[1..])
  }

  ghost function OpenIn(ts: seq<Tag>): seq<Kind>
    reads ts`closed
  {
    Unclosed(Kinds(ts), Flags(ts))
  }

  // Tag k has just been closed.
  lemma ClosedNow(ts: seq<Tag>, cl: seq<bool>, k: nat)
    requires |cl| == |ts| && k < |ts| && (forall i :: 0 <= i < k ==> cl[i]) && !cl[k]
    requires forall i :: 0 <= i < |ts| ==> ts[i].closed == (i == k || cl[i])
    ensures Unclosed(Kinds(ts), cl) == [ts[k].tag] + OpenIn(ts)
  {
    hide Unclosed;
    assert Flags(ts) == cl[k := true];
    CloseOne(Kinds(ts), cl, k);
  }

  // Closed tags on top can be removed.
  lemma OpenBelow(ts: seq<Tag>, n: nat)
    requires AllClosed(ts, n)
    ensures OpenIn(ts) == OpenIn(ts[n..])
  {
    hide Unclosed;
    UnclosedBelow(Kinds(ts), Flags(ts), n);
    assert Kinds(ts[n..]) == Kinds(ts)[n..] && Flags(ts[n..]) == Flags(ts)[n..];
  }

  lemma OpenAsBefore(ts: seq<Tag>, cl: seq<bool>, p: nat)
    requires p <= |ts| == |cl| && Flags(ts) == ClosedTo(cl, p)
    ensures OpenIn(ts[p..]) == OpenFrom(ts, cl, p)
  {
    hide Unclosed, Kinds, Flags;
    forall i | 0 <= i < |ts| - p
      ensures Flags(ts[p..])[i] == cl[p..][i]
    {
      assert ts[p..][i] == ts[p + i] && Flags(ts)[p + i] == ts[p + i].closed;
    }
    assert Flags(ts[p..]) == cl[p..];
  }

  // Closed tags on top do not matter.
  lemma {:induction false} UnclosedBelow(ks: seq<Kind>, cl: seq<bool>, n: nat)
    requires |ks| == |cl| && n <= |cl| && forall i :: 0 <= i < n ==> cl[i]
    ensures Unclosed(ks, cl) == Unclosed(ks[n..], cl[n..])
  {
    if n > 0 {
      UnclosedBelow(ks[1..], cl[1..], n - 1);
      assert ks[1..][n - 1..] == ks[n..] && cl[1..][n - 1..] == cl[n..];
    } else {
      assert ks[0..] == ks && cl[0..] == cl;
    }
  }

  // Closing tag k when all tags on top of it are closed.
  lemma CloseOne(ks: seq<Kind>, cl: seq<bool>, k: nat)
    requires |ks| == |cl| && k < |cl| && (forall i :: 0 <= i < k ==> cl[i]) && !cl[k]
    ensures Unclosed(ks, cl) == [ks[k]] + Unclosed(ks[k + 1..], cl[k + 1..])
    ensures Unclosed(ks, cl[k := true]) == Unclosed(ks[k + 1..], cl[k + 1..])
  {
    UnclosedBelow(ks, cl, k);
    UnclosedBelow(ks, cl[k := true], k + 1);
    assert cl[k := true][k + 1..] == cl[k + 1..];
    assert ks[k..][1..] == ks[k + 1..] && cl[k..][1..] == cl[k + 1..];
  }

  // None of these tags has been closed or referred to.
  ghost predicate Unused(ts: seq<Tag>)
    reads ts`closed, ts`refcnt
  {
    forall t :: t in ts ==> !t.closed && t.refcnt == 0
  }

  ghost predicate AllClosed(ts: seq<Tag>, n: nat)
    reads ts`closed
  {
    n <= |ts| && forall i :: 0 <= i < n ==> ts[i].closed
  }

  ghost predicate NoneFreed(ts: seq<Tag>)
    reads ts`freed
  {
    forall t :: t in ts ==> !t.freed
  }

  // The output is well nested, and these are its open elements.
  ghost predicate Nested(out: seq<Event>, indent: int, noindent: int, ks: seq<Kind>) {
    Replay(out) == Some(ks) && indent == Count(ks, Indented) && noindent == Count(ks, NotIndented)
  }

  lemma NestedEnd(out: seq<Event>, indent: int, noindent: int, k: Kind, ks: seq<Kind>)
    requires Nested(out, indent, noindent, [k] + ks)
    ensures Nested(out + [End(k)], if Indented(k) then indent - 1 else indent, if NotIndented(k) then noindent - 1
            else noindent, ks)
  {
    ReplayNext(out, End(k), [k] + ks);
    assert ([k] + ks)[1..] == ks;
  }

  lemma NestedStart(out: seq<Event>, indent: int, noindent: int, ks: seq<Kind>, k: Kind)
    requires Nested(out, indent, noindent, ks)
    ensures Nested(out + [Start(k)], if Indented(k) then indent + 1 else indent, if NotIndented(k) then noindent + 1
            else noindent, [k] + ks)
  {
    ReplayNext(out, Start(k), ks);
    assert ([k] + ks)[1..] == ks;
  }

  lemma NestedOther(out: seq<Event>, indent: int, noindent: int, ks: seq<Kind>, e: Event)
    requires Nested(out, indent, noindent, ks) && !e.Start? && !e.End?
    ensures Nested(out + [e], indent, noindent, ks)
  {
    ReplayNext(out, e, ks);
  }

  method SetClosed(ghost ts: seq<Tag>, t: Tag, ghost k: nat)
    requires Chain(ts) && k < |ts| && ts[k] == t && AllClosed(ts, k) && !t.closed
    modifies t`closed
    ensures t.closed && AllClosed(ts, k + 1) && old(OpenIn(ts)) == [t.tag] + OpenIn(ts)
  {
    hide Unclosed, Chain, OpenIn, Kinds, Flags;
    ghost var cl := Flags(ts);
    IsOpen(ts, cl);
    Distinct(ts, k);
    t.closed := true;
    ClosedNow(ts, cl, k);
  }

  // What was there before closing tags.
  datatype Was = Was(tags: set<Tag>, open: seq<Kind>, out: seq<Event>, metaf: Tag?)

  class HtmlOut {
    var tag: Tag?
    var out: seq<Event>
    var indent: int
    var noindent: int
    var metaf: Tag?
    var tblt: Tag?

    ghost function Stack(): seq<Tag>
      reads this`tag
    {
      ListOf(tag)
    }

    ghost function Tags(): (ts: set<Tag>)
      reads this`tag
    {
      set t | t in Stack()
    }

    // The elements whose tags are on the stack and not closed.
    ghost function Open(): seq<Kind>
      reads this`tag, ListOf(tag)`closed
    {
      OpenIn(Stack())
    }

    // The open elements of the output are just these.
    ghost predicate Valid()
      reads this, ListOf(tag)`closed, ListOf(tag)`freed
    {
      && Chain(Stack()) && NoneFreed(Stack())
      && Nested(out, indent, noindent, Open())
      && Marked(metaf) && Marked(tblt)
    }

    // A current scope is open.
    ghost predicate Marked(t: Tag?)
      reads this`tag, ListOf(tag)`closed
    {
      t != null ==> t in Stack() && !t.closed
    }

    constructor ()
      ensures Valid() && tag == null && out == [] && metaf == null
    {
      tag, out, indent, noindent, metaf, tblt := null, [], 0, 0, null, null;
    }

    // Write the end tag for tag number k of the stack.
    method EndTag(t: Tag, ghost k: nat)
      requires Valid() && k < |Stack()| && Stack()[k] == t && AllClosed(Stack(), k) && !t.closed
      modifies this`out, this`indent, this`noindent, this`metaf, this`tblt, t`closed
      ensures metaf == old(metaf) || metaf == null
      ensures Valid() && t.closed && out == old(out) + [End(t.tag)] && AllClosed(Stack(), k + 1)
      ensures old(Open()) == [t.tag] + Open()
    {
      hide Unclosed, Nested, Chain, OpenIn, Kinds, NoneFreed, Flags, Indented, NotIndented;
      ghost var ts := Stack();
      SetClosed(ts, t, k);
      NestedEnd(out, indent, noindent, t.tag, OpenIn(ts));
      metaf := if t == metaf then null else metaf;
      tblt := if t == tblt then null else tblt;
      indent := if Indented(t.tag) then indent - 1 else indent;
      noindent := if NotIndented(t.tag) then noindent - 1 else noindent;
      out := out + [End(t.tag)];
    }

    // Remove tag number k of the stack and the tags on top of it, which are
    // all closed.
    method Pop(t: Tag, ghost k: nat)
      requires Valid() && k < |Stack()| && Stack()[k] == t && AllClosed(Stack(), k + 1)
      modifies this`tag, t`freed
      ensures Valid() && Open() == old(Open()) && Stack() == old(Stack())[k + 1..] && AllClosed(Stack(), 0)
    {
      hide Unclosed, Nested, Chain, OpenIn, Kinds, Flags, NoneFreed, AllClosed;
      ghost var ts := Stack();
      ghost var rest := Popped(ts, k, metaf, tblt);
      tag := t.next;
      t.freed := true;
      NoneClosed(rest);
    }

    // Tag number k of the stack, all tags on top of it being closed, is
    // closed; it is removed unless there are references to it, together with
    // the tags on top of it.
    method CloseTag(t: Tag, ghost k: nat)
      requires Valid() && k < |Stack()| && Stack()[k] == t && AllClosed(Stack(), k)
      modifies this, t`closed, t`freed
      ensures metaf == old(metaf) || metaf == null
      ensures Valid() && t.closed
      ensures out == if old(t.closed) then old(out) else old(out) + [End(t.tag)]
      ensures old(Open()) == if old(t.closed) then Open() else [t.tag] + Open()
      ensures Stack() == if t.refcnt == 0 then old(Stack())[k + 1..] else old(Stack())
      ensures AllClosed(Stack(), if t.refcnt == 0 then 0 else k + 1)
    {
      hide Unclosed, Nested, Chain, OpenIn, Kinds, Flags;
      if !t.closed {
        EndTag(t, k);
      }
      if t.refcnt == 0 {
        Pop(t, k);
      }
    }

    // The first p tags of what was the stack ts have been closed, and those
    // without references are gone; the tags below are as they were.
    ghost predicate Walked(ts: seq<Tag>, cl: seq<bool>, rs: seq<nat>, p: nat)
      reads this`tag, ts`closed, ts`refcnt
    {
      && p <= |ts| == |cl| == |rs| && Stack() == ts[Cut(rs, p)..] && Flags(ts) == ClosedTo(cl, p) && Counts(ts) == rs
    }

    // On the way down from a stack ts with the closed tags cl, the first p
    // tags have been dealt with, and the elements ks ended.
    ghost predicate Down(ts: seq<Tag>, cl: seq<bool>, rs: seq<nat>, start: Was, ks: seq<Kind>, p: nat)
      reads this, ListOf(tag)`closed, ListOf(tag)`freed, ts`closed, ts`refcnt
    {
      && Valid() && Chain(ts) && Walked(ts, cl, rs, p) && Ended(start.open, start.out, ks, Open(), out)
      && Tags() <= start.tags && (metaf == start.metaf || metaf == null)
    }

    ghost function Now(): Was
      reads this, ListOf(tag)`closed
    {
      Was(Tags(), Open(), out, metaf)
    }

    lemma DownStart()
      requires Valid()
      ensures Down(Stack(), Flags(Stack()), Counts(Stack()), Now(), [], 0) && Chain(Stack())
    {
      hide Nested, NoneFreed, Chain, OpenIn, Kinds, Flags, Counts;
      assert Stack()[0..] == Stack() && ClosedTo(Flags(Stack()), 0) == Flags(Stack());
      EndedNone(Open(), out);
    }

    // What is known about tag number p.
    lemma DownNext(ts: seq<Tag>, cl: seq<bool>, rs: seq<nat>, start: Was, ks: seq<Kind>, p: nat) returns (k: nat)
      requires Down(ts, cl, rs, start, ks, p) && p < |ts|
      ensures k == p - Cut(rs, p) < |Stack()| && Stack()[k] == ts[p] && Stack()[k + 1..] == ts[p + 1..]
      ensures Valid() && AllClosed(Stack(), k) && ts[p].closed == cl[p] && ts[p].refcnt == rs[p]
      ensures forall i :: 0 <= i < |ts| && i != p ==> ts[i] != ts[p]
    {
      hide Nested, NoneFreed, Chain, OpenIn, Kinds, Flags, Counts, Ended;
      k := p - Cut(rs, p);
      Distinct(ts, p);
      assert Flags(ts)[p] == ts[p].closed && Counts(ts)[p] == ts[p].refcnt;
      forall i | 0 <= i < k
        ensures Stack()[i].closed
      {
        assert Stack()[i] == ts[Cut(rs, p) + i] && Flags(ts)[Cut(rs, p) + i];
      }
    }

    // Tag number p has been closed.
    lemma DownDone(ts: seq<Tag>, cl: seq<bool>, rs: seq<nat>, start: Was, ks: seq<Kind>, p: nat)
      requires Valid() && Chain(ts) && p < |ts| == |cl| == |rs| && Stack() == ts[Cut(rs, p + 1)..] && Counts(ts) == rs
      requires ts[p].closed && forall i :: 0 <= i < |ts| && i != p ==> ts[i].closed == (i < p || cl[i])
      requires Ended(start.open, start.out, ks, Open(), out) && Tags() <= start.tags
      requires metaf == start.metaf || metaf == null
      ensures Down(ts, cl, rs, start, ks, p + 1)
    {
      hide Nested, NoneFreed, Chain, OpenIn, Kinds, Flags, Counts, Ended, Cut, HtmlOut.Valid;
      assert Flags(ts) == ClosedTo(cl, p + 1);
    }

    lemma DownEnd(ts: seq<Tag>, cl: seq<bool>, rs: seq<nat>, start: Was, ks: seq<Kind>, p: nat)
      requires Down(ts, cl, rs, start, ks, p)
      ensures Valid() && Ended(start.open, start.out, ks, Open(), out) && Tags() <= start.tags
      ensures metaf == start.metaf || metaf == null
      ensures Walked(ts, cl, rs, p) && p <= |ts| == |cl| && Open() == OpenFrom(ts, cl, p)
    {
      hide Unclosed, Nested, NoneFreed, Chain, OpenIn, Kinds, Flags, Counts, Ended;
      var c := Cut(rs, p);
      forall i | 0 <= i < p - c
        ensures Stack()[i].closed
      {
        assert Stack()[i] == ts[c + i] && Flags(ts)[c + i];
      }
      OpenBelow(Stack(), p - c);
      assert Stack()[p - c..] == ts[p..];
      OpenAsBefore(ts, cl, p);
    }

    // Close the next tag on the way down.
    method CloseNext(t: Tag, ghost ts: seq<Tag>, ghost cl: seq<bool>, ghost rs: seq<nat>, ghost start: Was,
        ghost ks: seq<Kind>, ghost p: nat) returns (ghost ks': seq<Kind>)
      requires Down(ts, cl, rs, start, ks, p) && p < |ts| && t == ts[p]
      modifies this, t`closed, t`freed
      ensures Down(ts, cl, rs, start, ks', p + 1)
    {
      hide Unclosed, Nested, OpenIn, Kinds, Flags, NoneFreed, Chain, Ended, HtmlOut.Valid, AllClosed, HtmlOut.Walked;
      hide HtmlOut.Down, Counts;
      ghost var k := DownNext(ts, cl, rs, start, ks, p);
      DownHolds(ts, cl, rs, start, ks, p);
      ghost var o, e := Open(), out;
      CloseTag(t, k);
      EndedMore(start.open, start.out, ks, o, e, t.tag);
      ks' := if cl[p] then ks else ks + [t.tag];
      DownDone(ts, cl, rs, start, ks', p);
    }

    lemma DownHolds(ts: seq<Tag>, cl: seq<bool>, rs: seq<nat>, start: Was, ks: seq<Kind>, p: nat)
      requires Down(ts, cl, rs, start, ks, p)
      ensures Chain(ts) && p <= |ts| == |cl| == |rs| && Stack() == ts[Cut(rs, p)..] && Counts(ts) == rs
      ensures forall i :: 0 <= i < |ts| ==> ts[i].closed == (i < p || cl[i])
      ensures Ended(start.open, start.out, ks, Open(), out) && Tags() <= start.tags
      ensures metaf == start.metaf || metaf == null
    {
      hide Nested, NoneFreed, Chain, OpenIn, Kinds, Flags, Counts, Ended, Cut, HtmlOut.Valid;
      forall i | 0 <= i < |ts|
        ensures ts[i].closed == (i < p || cl[i])
      {
        assert Flags(ts)[i] == ts[i].closed;
      }
    }

    // Close all open elements up to and including a tag; all of them if it is
    // not on the stack.
    method CloseUpTo(until: Tag?) returns (ghost ks: seq<Kind>, ghost p: nat)
      requires Valid()
      modifies this, Tags()`closed, Tags()`freed
      ensures metaf == old(metaf) || metaf == null
      ensures Tags() <= old(Tags())
      ensures Valid() && Ended(old(Open()), old(out), ks, Open(), out)
      ensures p == old(Behind(Stack(), until)) && Open() == OpenFrom(old(Stack()), old(Flags(Stack())), p)
      ensures Walked(old(Stack()), old(Flags(Stack())), old(Counts(Stack())), p)
    {
      hide Unclosed, Nested, OpenIn, Kinds, Flags, NoneFreed, Chain, Behind, Ended, Ends, Counts, Cut;
      hide HtmlOut.Valid, HtmlOut.Walked, HtmlOut.Down;
      ghost var ts, cl, rs, start := Stack(), Flags(Stack()), Counts(Stack()), Now();
      ks, p := [], 0;
      DownStart();
      var this_ := tag;
      while this_ != null
        invariant Down(ts, cl, rs, start, ks, p)
        invariant p <= Behind(ts, until) && this_ == if p == Behind(ts, until) then null else TagAt(ts, p)
        decreases |ts| - p
      {
        NextTag(ts, p);
        StepDown(ts, until, p);
        var next := if this_ == until then null else this_.next;
        ks := CloseNext(this_, ts, cl, rs, start, ks, p);
        p := p + 1;
        this_ := next;
      }
      DownEnd(ts, cl, rs, start, ks, p);
    }

    // Close all open elements above a tag, except for a paragraph just above.
    method CloseAbove(suntil: Tag?) returns (ghost ks: seq<Kind>, ghost p: nat)
      requires Valid()
      modifies this, Tags()`closed, Tags()`freed
      ensures metaf == old(metaf) || metaf == null
      ensures Tags() <= old(Tags())
      ensures Valid() && Ended(old(Open()), old(out), ks, Open(), out)
      ensures p == old(StopAt(Stack(), suntil)) && Open() == OpenFrom(old(Stack()), old(Flags(Stack())), p)
      ensures Walked(old(Stack()), old(Flags(Stack())), old(Counts(Stack())), p)
    {
      hide Unclosed, Nested, OpenIn, Kinds, Flags, NoneFreed, Chain, StopAt, Ended, Ends, Counts, Cut;
      hide HtmlOut.Valid, HtmlOut.Walked, HtmlOut.Down;
      ghost var ts, cl, rs, start := Stack(), Flags(Stack()), Counts(Stack()), Now();
      ks, p := [], 0;
      DownStart();
      var this_ := tag;
      while this_ != null
        invariant Down(ts, cl, rs, start, ks, p)
        invariant p <= StopAt(ts, suntil) && this_ == TagAt(ts, p)
        decreases |ts| - p
      {
        NextTag(ts, p);
        var next := this_.next;
        StopHere(ts, suntil, p);
        if this_ == suntil || (next == suntil && (this_.tag == P || this_.tag == Pre)) {
          break;
        }
        ks := CloseNext(this_, ts, cl, rs, start, ks, p);
        p := p + 1;
        this_ := next;
      }
      DownEnd(ts, cl, rs, start, ks, p);
    }

    // Close the innermost paragraph with all phrases in it.
    method CloseParagraph() returns (ghost ks: seq<Kind>, ghost p: nat)
      requires Valid() && SomeFlow(Stack())
      modifies this, Tags()`closed, Tags()`freed
      ensures metaf == old(metaf) || metaf == null
      ensures Tags() <= old(Tags())
      ensures Valid() && Ended(old(Open()), old(out), ks, Open(), out)
      ensures p == old(ParagraphEnd(Stack())) && Open() == OpenFrom(old(Stack()), old(Flags(Stack())), p)
      ensures Walked(old(Stack()), old(Flags(Stack())), old(Counts(Stack())), p)
    {
      hide Unclosed, Nested, OpenIn, Kinds, Flags, NoneFreed, Chain, Ended, InPhrase, ToPhrase, Phrases;
      hide Ends, Counts, Cut, HtmlOut.Valid, HtmlOut.Walked, HtmlOut.Down;
      ghost var ts, cl, rs, start := Stack(), Flags(Stack()), Counts(Stack()), Now();
      ks, p := [], 0;
      DownStart();
      AnyFlow(ts);
      var this_ := tag;
      while true
        invariant Down(ts, cl, rs, start, ks, p)
        invariant p <= Phrases(ts) < |ts| && this_ == TagAt(ts, p)
        decreases |ts| - p
      {
        NextTag(ts, p);
        var next := this_.next;
        var kind := this_.tag;
        PhraseHere(ts, p);
        if InPhrase(kind) || ToPhrase(kind) {
          ks := CloseNext(this_, ts, cl, rs, start, ks, p);
          p := p + 1;
        }
        if !InPhrase(kind) {
          break;
        }
        this_ := next;
      }
      DownEnd(ts, cl, rs, start, ks, p);
    }

    // The innermost open element, if there is one, is no phrasing context.
    ghost predicate FlowAllowed()
      reads this`tag, ListOf(tag)`closed
    {
      Open() == [] || !ToPhrase(Open()[0])
    }

    // What print_otag() demands: flow content is allowed where it occurs, and
    // there is a tag on the stack if a phrase might need a paragraph.
    ghost predicate OtagAllowed(k: Kind)
      reads this`tag, ListOf(tag)`closed
    {
      if !InPhrase(k) then FlowAllowed()
      else ToPhrase(k) ==> tag != null && (tag.tag == Section ==> FlowAllowed())
    }

    // Push a tag onto the stack.
    method Push(k: Kind) returns (t: Tag)
      requires Valid()
      modifies this`tag, this`out, this`indent, this`noindent
      ensures Valid() && fresh(t) && t.tag == k && !t.closed && t.refcnt == 0
      ensures tag == t && Stack() == [t] + old(Stack()) && Open() == [k] + old(Open()) && out == old(out) + [Start(k)]
    {
      hide Unclosed, Nested, OpenIn, Kinds, Flags, Chain, Indented, NotIndented, NoneFreed;
      ghost var ts, open := Stack(), Open();
      t := new Tag(k, tag);
      tag := t;
      PushChain(t, ts);
      assert NoneFreed([t] + ts) by {
        PushFreed(t, ts);
      }
      NestedStart(out, indent, noindent, open, k);
      out := out + [Start(k)];
      indent := if Indented(k) then indent + 1 else indent;
      noindent := if NotIndented(k) then noindent + 1 else noindent;
    }

    // Write something that opens and ends nothing.
    method Put(e: Event)
      requires Valid() && !e.Start? && !e.End?
      modifies this`out
      ensures Valid() && Open() == old(Open()) && out == old(out) + [e]
    {
      hide Unclosed, Nested, OpenIn, Kinds, Flags, Chain, NoneFreed;
      NestedOther(out, indent, noindent, Open(), e);
      out := out + [e];
    }

    // Write a start tag, in a paragraph if it is a phrase directly in a
    // section.
    method Otag(k: Kind) returns (t: Tag?, ghost pushed: seq<Tag>)
      requires Valid() && OtagAllowed(k)
      modifies this`tag, this`out, this`indent, this`noindent
      ensures Valid() && Stack() == pushed + old(Stack()) && (forall x :: x in pushed ==> fresh(x)) && Unused(pushed)
      ensures Kinds(pushed) == (if NoStack(k) then [] else [k]) + Paragraph(k, old(tag))
              && Open() == Kinds(pushed) + old(Open())
      ensures if NoStack(k) then t == null else pushed != [] && t == pushed[0] == tag
      ensures
        var starts := old(out) + Starts(Kinds(pushed));
        out == if NoStack(k) then starts + [Empty(k)] else starts
    {
      hide Unclosed, Nested, OpenIn, Flags, Chain, Indented, NotIndented, NoneFreed, NoStack, FlowAllowed, InPhrase;
      hide ToPhrase, Starts, Kinds, HtmlOut.Valid;
      NonePushed(out);
      pushed := [];
      if InPhrase(k) && ToPhrase(k) && tag.tag == Section {
        var p;
        p, pushed := PushOn(P, [], Stack(), out);
      }
      if NoStack(k) {
        t := null;
        Put(Empty(k));
      } else {
        t, pushed := PushOn(k, pushed, old(Stack()), old(out));
      }
    }

    // Push a tag onto the stack, on top of those pushed before.
    method PushOn(k: Kind, ghost pushed: seq<Tag>, ghost base: seq<Tag>, ghost out0: seq<Event>)
      returns (t: Tag, ghost pushed': seq<Tag>)
      requires Valid() && Stack() == pushed + base
      requires Open() == Kinds(pushed) + OpenIn(base) && out == out0 + Starts(Kinds(pushed))
      modifies this`tag, this`out, this`indent, this`noindent
      ensures Valid() && fresh(t) && tag == t && t.tag == k && !t.closed && t.refcnt == 0 && pushed' == [t] + pushed
      ensures Stack() == pushed' + base && out == out0 + Starts(Kinds(pushed'))
      ensures Kinds(pushed') == [k] + Kinds(pushed) && Open() == Kinds(pushed') + old(OpenIn(base))
    {
      hide Unclosed, Nested, OpenIn, Flags, Chain, NoneFreed, HtmlOut.Valid, Kinds, Starts;
      t := Push(k);
      pushed' := [t] + pushed;
      StartsPushed(t, pushed, out0);
      assert [t] + (pushed + base) == pushed' + base;
    }

    // Close everything that is still open.
    method CloseAll() returns (ghost ks: seq<Kind>, ghost p: nat)
      requires Valid()
      modifies this, Tags()`closed, Tags()`freed
      ensures Tags() <= old(Tags())
      ensures Valid() && out == old(out) + Ends(old(Open()))
      ensures Replay(out) == Some([]) && indent == 0 && noindent == 0
    {
      hide Unclosed, OpenIn, Kinds, Flags, Chain, NoneFreed, HtmlOut.Walked, Cut, Counts, Nested, Behind, HtmlOut.Valid;
      ghost var ts, cl := Stack(), Flags(Stack());
      ks, p := CloseUpTo(null);
      NothingFrom(ts, cl);
      NothingLeft();
      assert old(Open()) == ks;
    }

    // When nothing is open, the output is balanced.
    lemma NothingLeft()
      requires Valid() && Open() == []
      ensures Replay(out) == Some([]) && indent == 0 && noindent == 0
    {
      NothingOpen(Open());
    }

    // Somebody starts or ends referring to a tag.
    method Refer(t: Tag)
      requires Valid()
      modifies t`refcnt
      ensures Valid() && t.refcnt == old(t.refcnt) + 1 && Open() == old(Open())
    {
      hide Unclosed, Kinds, Flags, Nested, Chain;
      ghost var cl := Flags(Stack());
      t.refcnt := t.refcnt + 1;
      assert Flags(Stack()) == cl;
    }

    method Release(t: Tag)
      requires Valid() && t.refcnt > 0
      modifies t`refcnt
      ensures Valid() && t.refcnt == old(t.refcnt) - 1
    {
      t.refcnt := t.refcnt - 1;
    }

    // Note the tag for the current font.
    method SetFont(t: Tag?)
      requires Valid() && (t != null ==> t in Stack() && !t.closed)
      modifies this`metaf
      ensures Valid() && metaf == t
    {
      hide Nested, NoneFreed, Chain;
      metaf := t;
    }

    // Write the start tag of a phrase.
    method OpenPhrase(k: Kind) returns (t: Tag)
      requires Valid() && tag != null && tag.tag != Section
      requires InPhrase(k) && ToPhrase(k) && !NoStack(k) && k != Section
      modifies this`tag, this`out, this`indent, this`noindent
      ensures Valid() && fresh(t) && tag == t && t.tag == k && !t.closed && t.refcnt == 0
      ensures Stack() == [t] + old(Stack()) && Open() == [k] + old(Open()) && out == old(out) + [Start(k)]
    {
      hide Unclosed, Nested, OpenIn, Flags, Chain, NoneFreed, InPhrase, ToPhrase, NoStack, HtmlOut.Valid, Kinds, Starts;
      ghost var pushed;
      var u;
      u, pushed := Otag(k);
      t := u;
      assert t in pushed && pushed == [t] && Kinds(pushed) == [k];
      StartsOf([k]);
    }

    // Open one more phrase on top of those pushed.
    method PushFont(k: Kind, ghost pushed: seq<Tag>, ghost base: seq<Tag>, ghost out0: seq<Event>)
      returns (t: Tag, ghost pushed': seq<Tag>)
      requires Valid() && tag != null && tag.tag != Section
      requires InPhrase(k) && ToPhrase(k) && !NoStack(k) && k != Section
      requires Stack() == pushed + base && Open() == Kinds(pushed) + OpenIn(base) && out == out0 + Starts(Kinds(pushed))
      modifies this`tag, this`out, this`indent, this`noindent
      ensures Valid() && fresh(t) && tag == t && t.tag == k && !t.closed && t.refcnt == 0 && pushed' == [t] + pushed
      ensures Stack() == pushed' + base && out == out0 + Starts(Kinds(pushed'))
      ensures Kinds(pushed') == [k] + Kinds(pushed) && Open() == Kinds(pushed') + old(OpenIn(base))
    {
      hide Unclosed, Nested, OpenIn, Flags, Chain, NoneFreed, InPhrase, ToPhrase, NoStack, HtmlOut.Valid, Kinds, Starts;
      t := OpenPhrase(k);
      pushed' := [t] + pushed;
      StartsPushed(t, pushed, out0);
      assert [t] + (pushed + base) == pushed' + base;
    }

    // Open the current font; metaf is the outermost tag needed for it.
    method OpenFont(font: Font) returns (ghost pushed: seq<Tag>)
      requires Valid() && metaf == null && tag != null && tag.tag != Section
      modifies this`tag, this`out, this`indent, this`noindent, this`metaf
      ensures Valid() && Stack() == pushed + old(Stack()) && (forall x :: x in pushed ==> fresh(x)) && Unused(pushed)
      ensures Kinds(pushed) == FontTags(font) && Open() == FontTags(font) + old(Open())
      ensures metaf == (if pushed == [] then null else pushed[|pushed| - 1]) && tag != null && tag.tag != Section
      ensures out == old(out) + Starts(FontTags(font))
    {
      hide Unclosed, Nested, OpenIn, Kinds, Flags, Chain, NoneFreed, Indented, NotIndented, InPhrase, ToPhrase;
      hide NoStack, FlowAllowed, HtmlOut.Valid;
      hide Starts;
      FontKinds(font);
      NonePushed(out);
      pushed := [];
      var first := FirstFont(font);
      if first.Some? {
        var t;
        t, pushed := PushFont(first.value, pushed, Stack(), out);
        SetFont(t);
        var second := SecondFont(font);
        if second.Some? {
          var u;
          u, pushed := PushFont(second.value, pushed, old(Stack()), old(out));
        }
      }
    }

    // Close a tag and everything inside of it, leaving what is below.
    method CloseScope(t: Tag, ghost pushed: seq<Tag>, ghost base: seq<Tag>)
      requires Valid() && Stack() == pushed + base && pushed != [] && t == pushed[|pushed| - 1] && t.refcnt == 0
      requires Open() == Kinds(pushed) + OpenIn(base)
      modifies this, Tags()`closed, Tags()`freed
      ensures Tags() <= old(Tags())
      ensures metaf == old(metaf) || metaf == null
      ensures Valid() && Open() == old(OpenIn(base)) && out == old(out) + Ends(Kinds(pushed))
      ensures Stack() == base && Flags(base) == old(Flags(base))
    {
      hide Unclosed, Nested, OpenIn, Kinds, Flags, Chain, NoneFreed, Behind, Counts, HtmlOut.Walked;
      PushedBelow(pushed, base, t);
      ghost var cl, rs := Flags(Stack()), Counts(Stack());
      SplitFlags(pushed, base);
      ghost var ks, p;
      ks, p := CloseUpTo(t);
      ScopeLeft(pushed, base, cl, rs);
      SameEnd(Kinds(pushed), ks, Open());
    }

    lemma ScopeLeft(pushed: seq<Tag>, base: seq<Tag>, cl: seq<bool>, rs: seq<nat>)
      requires Walked(pushed + base, cl, rs, |pushed|) && pushed != [] && pushed[|pushed| - 1].refcnt == 0
      ensures |cl| == |pushed| + |base| && Stack() == base && Flags(base) == cl[|pushed|..]
    {
      hide Flags, Counts;
      var n := |pushed|;
      assert (pushed + base)[n - 1] == pushed[n - 1] && rs[n - 1] == 0;
      assert (pushed + base)[n..] == base;
      SplitFlags(pushed, base);
      assert ClosedTo(cl, n)[n..] == cl[n..];
    }

    // Open a link for a word.
    method OpenLink(permalink: bool) returns (t: Tag?, ghost link: seq<Tag>)
      requires Valid() && tag != null && tag.tag != Section
      modifies this`tag, this`out, this`indent, this`noindent
      ensures Valid() && Stack() == link + old(Stack()) && (forall x :: x in link ==> fresh(x)) && Unused(link)
      ensures if permalink then link != [] && t == link[|link| - 1] && |link| == 1 else link == [] && t == null
      ensures Open() == Kinds(link) + old(Open()) && tag != null
      ensures Kinds(link) == (if permalink then [A] else []) && out == old(out) + Starts(Kinds(link))
    {
      hide Unclosed, Nested, OpenIn, Flags, Chain, NoneFreed, Indented, NotIndented, ToPhrase, NoStack, FlowAllowed;
      hide HtmlOut.Valid;
      t, link := null, [];
      if permalink {
        FontKinds(Roman);
        t, link := Otag(A);
      } else {
        assert link + Stack() == Stack() && Kinds(link) + Open() == Open();
      }
    }

    // Write a word of text, perhaps with a link around it, and close the link
    // and the current font again.
    method WriteWord(permalink: bool, ghost fonts: seq<Tag>, ghost base: seq<Tag>)
      requires Valid() && Stack() == fonts + base && tag != null && tag.tag != Section
      requires metaf == if fonts == [] then null else fonts[|fonts| - 1]
      requires Open() == Kinds(fonts) + OpenIn(base) && Unused(fonts)
      modifies this, Tags()`closed, Tags()`freed
      ensures forall x :: x in Tags() ==> fresh(x) || x in old(Tags())
      ensures Valid() && metaf == null && Open() == old(OpenIn(base))
      ensures Stack() == base && Flags(base) == old(Flags(base))
      ensures
        var link := if permalink then [A] else [];
        out == old(out) + Starts(link) + [Text] + Ends(link + Kinds(fonts))
    {
      hide Unclosed, Nested, OpenIn, Kinds, Flags, Chain, NoneFreed, Indented, NotIndented, InPhrase, ToPhrase;
      hide NoStack, FlowAllowed, HtmlOut.Valid;
      hide Starts, Ends;
      var t: Tag?;
      ghost var link: seq<Tag>;
      t, link := OpenLink(permalink);
      Put(Text);
      assert forall x :: x in Tags() ==> fresh(x) || x in old(Tags());
      CloseWord(t, link, fonts, base);
    }

    // Close the font and the link of a word.
    method CloseWord(t: Tag?, ghost link: seq<Tag>, ghost fonts: seq<Tag>, ghost base: seq<Tag>)
      requires Valid() && Stack() == link + (fonts + base) && Open() == Kinds(link) + (Kinds(fonts) + OpenIn(base))
      requires metaf == if fonts == [] then null else fonts[|fonts| - 1]
      requires t == (if link == [] then null else link[|link| - 1]) && Unused(link) && Unused(fonts)
      modifies this, Tags()`closed, Tags()`freed
      ensures Tags() <= old(Tags())
      ensures Valid() && metaf == null && Open() == old(OpenIn(base))
      ensures Stack() == base && Flags(base) == old(Flags(base))
      ensures out == old(out) + Ends(Kinds(link) + Kinds(fonts))
    {
      hide Unclosed, Nested, OpenIn, Kinds, Flags, Chain, NoneFreed, HtmlOut.Valid, Ends;
      ghost var below := OpenIn(base);
      if metaf != null {
        Regroup(link, fonts, base, below);
        CloseScope(metaf, link + fonts, base);
        SetFont(null);
      } else {
        NoFonts(link, base, below);
        if t != null {
          CloseScope(t, link, base);
        } else {
          NothingEnds(out);
        }
      }
    }

    // Write a word of text in a font; all that is opened for it is closed
    // again, except for a paragraph.
    method PrintText(font: Font, permalink: bool) returns (ghost pushed: seq<Tag>)
      requires Valid() && metaf == null && tag != null && (tag.tag == Section ==> FlowAllowed())
      modifies this, Tags()`closed, Tags()`freed
      ensures forall x :: x in Tags() ==> fresh(x) || x in old(Tags())
      ensures Valid() && metaf == null
      ensures Open() == (if old(tag).tag == Section then [P] else []) + old(Open())
      ensures out == old(out) + WordEvents(old(tag), font, permalink)
      ensures Stack() == pushed + old(Stack()) && Kinds(pushed) == (if old(tag).tag == Section then [P] else [])
      ensures (forall x :: x in pushed ==> fresh(x)) && Unused(pushed) && Flags(old(Stack())) == old(Flags(Stack()))
    {
      hide Unclosed, Nested, OpenIn, Kinds, Flags, Chain, NoneFreed, FontTags, Indented, NotIndented, FlowAllowed;
      hide ToPhrase, NoStack, InPhrase, HtmlOut.Valid, Starts, Ends, Unused, WordEvents;
      ghost var para;
      para, pushed := WrapText();
      ghost var ts, cl := old(Stack()), Flags(Stack());
      AreUnused(pushed, ts);
      assert cl[|pushed|..] == old(Flags(Stack()));
      WordWritten(old(out), para, font, permalink, old(tag));
      WriteInFont(font, permalink);
      StillUnused(pushed, ts, cl);
    }

    // Write a word of text in a font, outside of sections.
    method WriteInFont(font: Font, permalink: bool)
      requires Valid() && metaf == null && tag != null && tag.tag != Section
      modifies this, Tags()`closed, Tags()`freed
      ensures forall x :: x in Tags() ==> fresh(x) || x in old(Tags())
      ensures Valid() && metaf == null && Open() == old(Open())
      ensures Stack() == old(Stack()) && Flags(Stack()) == old(Flags(Stack()))
      ensures
        var link := if permalink then [A] else [];
        out == old(out) + Starts(FontTags(font)) + Starts(link) + [Text] + Ends(link + FontTags(font))
    {
      hide Unclosed, Nested, OpenIn, Kinds, Flags, Chain, NoneFreed, FontTags, Indented, NotIndented, FlowAllowed;
      hide ToPhrase, NoStack, InPhrase, HtmlOut.Valid, Starts, Ends, Unused;
      ghost var base := Stack();
      ghost var fonts := OpenFont(font);
      assert forall x :: x in Tags() ==> fresh(x) || x in old(Tags());
      assert Open() == Kinds(fonts) + OpenIn(base);
      WriteWord(permalink, fonts, base);
    }

    // Text directly in a section goes into a paragraph.
    method WrapText() returns (ghost para: seq<Event>, ghost pushed: seq<Tag>)
      requires Valid() && metaf == null && tag != null && (tag.tag == Section ==> FlowAllowed())
      modifies this`tag, this`out, this`indent, this`noindent
      ensures Valid() && tag != null && tag.tag != Section && forall x :: x in Tags() ==> fresh(x) || x in old(Tags())
      ensures Open() == (if old(tag).tag == Section then [P] else []) + old(Open())
      ensures para == (if old(tag).tag == Section then [Start(P)] else []) && out == old(out) + para
      ensures Stack() == pushed + old(Stack()) && (forall x :: x in pushed ==> fresh(x)) && Unused(pushed)
      ensures Kinds(pushed) == (if old(tag).tag == Section then [P] else [])
    {
      hide Unclosed, Nested, OpenIn, Kinds, Flags, Chain, NoneFreed, Indented, NotIndented, FlowAllowed;
      hide ToPhrase, NoStack, InPhrase, HtmlOut.Valid;
      FontKinds(Roman);
      para, pushed := [], [];
      assert [] + Stack() == Stack() && Kinds([]) == [];
      if tag.tag == Section {
        var t: Tag?;
        t, pushed := Otag(P);
        para := [Start(P)];
        assert pushed == [t] && Starts([P]) == para;
      }
    }

    // Does print_otag() accept this element?
    method MayOpen(k: Kind) returns (ok: bool)
      requires Valid()
      ensures ok <==> OtagAllowed(k)
    {
      var flow := MayFlow();
      ok := if !InPhrase(k) then flow else ToPhrase(k) ==> tag != null && (tag.tag == Section ==> flow);
    }

    // Is flow content allowed here?
    method MayFlow() returns (ok: bool)
      requires Valid()
      ensures ok <==> FlowAllowed()
    {
      hide Nested, NoneFreed, ToPhrase, Unclosed, Kinds, Flags;
      ghost var ts, p: nat := Stack(), 0;
      FromAll(ts);
      var t := tag;
      while t != null && t.closed
        invariant p <= |ts| && t == TagAt(ts, p) && Open() == OpenFrom(ts, Flags(ts), p)
        decreases |ts| - p
      {
        NextTag(ts, p);
        FromNext(ts, p);
        t := t.next;
        p := p + 1;
      }
      if t != null {
        FromNext(ts, p);
      } else {
        FromEnd(ts);
      }
      ok := t == null || !ToPhrase(t.tag);
    }

    // Is there any flow content on the stack?
    method HasFlow() returns (ok: bool)
      requires Valid()
      ensures ok <==> SomeFlow(Stack())
    {
      hide Nested, NoneFreed, InPhrase;
      ghost var ts, p: nat := Stack(), 0;
      var t := tag;
      while t != null && InPhrase(t.tag)
        invariant p <= |ts| && t == TagAt(ts, p) && forall i :: 0 <= i < p ==> InPhrase(ts[i].tag)
        decreases |ts| - p
      {
        NextTag(ts, p);
        t := t.next;
        p := p + 1;
      }
      ok := t != null;
      assert ts == Stack() && (!ok ==> p == |ts|) && (ok ==> !InPhrase(Stack()[p].tag));
    }
  }

  // These elements have been ended.
  ghost predicate Ended(open0: seq<Kind>, out0: seq<Event>, ks: seq<Kind>, open: seq<Kind>, out: seq<Event>) {
    open0 == ks + open && out == out0 + Ends(ks)
  }

  lemma EndedNone(open: seq<Kind>, out: seq<Event>)
    ensures Ended(open, out, [], open, out)
  {
  }

  lemma EndedMore(open0: seq<Kind>, out0: seq<Event>, ks: seq<Kind>, open: seq<Kind>, out: seq<Event>, k: Kind)
    requires Ended(open0, out0, ks, open, out)
    ensures forall rest :: open == [k] + rest ==> Ended(open0, out0, ks + [k], rest, out + [End(k)])
  {
    assert out0 + Ends(ks + [k]) == out0 + Ends(ks) + [End(k)];
    forall rest | open == [k] + rest
      ensures open0 == ks + [k] + rest
    {
    }
  }

  datatype Font = Roman | Bold | Italic | BoldItalic | Typewriter | TypewriterBold | TypewriterItalic

  function FirstFont(font: Font): Option<Kind> {
    match font
    case Roman => None
    case Italic => Some(I)
    case Bold => Some(B)
    case BoldItalic => Some(B)
    case _ => Some(Span)
  }

  function SecondFont(font: Font): Option<Kind> {
    match font
    case BoldItalic => Some(I)
    case TypewriterBold => Some(B)
    case TypewriterItalic => Some(I)
    case _ => None
  }

  // The elements for a font, the innermost one first.
  function FontTags(font: Font): seq<Kind> {
    (if SecondFont(font).Some? then [SecondFont(font).value] else [])
    + if FirstFont(font).Some? then [FirstFont(font).value] else []
  }

  lemma FontKinds(font: Font)
    ensures FirstFont(font).Some? ==>
              var k := FirstFont(font).value; InPhrase(k) && ToPhrase(k) && !NoStack(k) && k != Section && k != P
    ensures SecondFont(font).Some? ==>
              var k := SecondFont(font).value;
              FirstFont(font).Some? && InPhrase(k) && ToPhrase(k) && !NoStack(k) && k != Section
    ensures InPhrase(A) && ToPhrase(A) && !NoStack(A) && !InPhrase(P) && !NoStack(P)
  {
  }

  lemma WordWritten(out: seq<Event>, para: seq<Event>, font: Font, permalink: bool, top: Tag?)
    requires para == if top != null && top.tag == Section then [Start(P)] else []
    ensures
      var link := if permalink then [A] else [];
      out + para + Starts(FontTags(font)) + Starts(link) + [Text] + Ends(link + FontTags(font))
      == out + WordEvents(top, font, permalink)
  {
    hide Starts, Ends, FontTags;
  }

  lemma Regroup(link: seq<Tag>, fonts: seq<Tag>, base: seq<Tag>, below: seq<Kind>)
    ensures link + (fonts + base) == (link + fonts) + base && Kinds(link + fonts) == Kinds(link) + Kinds(fonts)
    ensures Kinds(link) + (Kinds(fonts) + below) == Kinds(link + fonts) + below
  {
  }

  lemma NoFonts(link: seq<Tag>, base: seq<Tag>, below: seq<Kind>)
    ensures link + ([] + base) == link + base && Kinds([]) == [] && Kinds(link) + [] == Kinds(link)
    ensures Kinds(link) + ([] + below) == Kinds(link) + below
    ensures link == [] ==> link + base == base && Kinds(link) + below == below
  {
  }

  lemma NothingEnds(out: seq<Event>)
    ensures out + Ends(Kinds([])) == out
  {
  }

  lemma SplitFlags(a: seq<Tag>, b: seq<Tag>)
    ensures Flags(b) == Flags(a + b)[|a|..]
  {
  }

  lemma AreUnused(pushed: seq<Tag>, ts: seq<Tag>)
    requires Unused(pushed)
    ensures Flags(ts) == Flags(pushed + ts)[|pushed|..]
    ensures forall i :: 0 <= i < |pushed| ==> !Flags(pushed + ts)[i] && pushed[i].refcnt == 0
  {
    SplitFlags(pushed, ts);
  }

  lemma StillUnused(pushed: seq<Tag>, ts: seq<Tag>, cl: seq<bool>)
    requires Flags(pushed + ts) == cl && (forall i :: 0 <= i < |pushed| ==> !cl[i])
    requires forall i :: 0 <= i < |pushed| ==> pushed[i].refcnt == 0
    ensures Unused(pushed) && Flags(ts) == cl[|pushed|..]
  {
    hide Flags;
    SplitFlags(pushed, ts);
    forall i | 0 <= i < |pushed|
      ensures !pushed[i].closed
    {
      assert (pushed + ts)[i] == pushed[i] && Flags(pushed + ts)[i] == pushed[i].closed;
    }
  }

  lemma PushedBelow(pushed: seq<Tag>, base: seq<Tag>, t: Tag)
    requires Chain(pushed + base) && pushed != [] && t == pushed[|pushed| - 1]
    ensures Behind(pushed + base, t) == |pushed|
    ensures OpenFrom(pushed + base, Flags(pushed + base), |pushed|) == OpenIn(base)
  {
    hide Unclosed, Behind;
    var ts, n := pushed + base, |pushed|;
    Distinct(ts, n - 1);
    assert ts[n - 1] == t;
    assert ts[n..] == base && Flags(ts)[n..] == Flags(base);
    assert t in ts;
  }

  // Writing the start tags of elements, given with the innermost one first.
  function Starts(ks: seq<Kind>): seq<Event> {
    if ks == [] then [] else Starts(ks[1..]) + [Start(ks[0])]
  }

  lemma NonePushed(out: seq<Event>)
    ensures Kinds([]) == [] && out == out + Starts(Kinds([]))
    ensures forall ts: seq<Tag> :: ts == [] + ts
    ensures forall ks: seq<Kind> :: ks == Kinds([]) + ks
  {
  }

  lemma StartsOf(ks: seq<Kind>)
    requires |ks| <= 1
    ensures Starts(ks) == if ks == [] then [] else [Start(ks[0])]
  {
    if |ks| == 1 {
      assert ks[1..] == [];
    }
  }

  lemma StartsPushed(t: Tag, ts: seq<Tag>, out: seq<Event>)
    ensures out + Starts(Kinds(ts)) + [Start(t.tag)] == out + Starts(Kinds([t] + ts))
    ensures Kinds([t] + ts) == [t.tag] + Kinds(ts)
  {
    assert Kinds([t] + ts)[1..] == Kinds(ts);
  }

  lemma SameEnd(a: seq<Kind>, b: seq<Kind>, rest: seq<Kind>)
    requires a + rest == b + rest
    ensures a == b
  {
    assert |a| == |b|;
    assert (a + rest)[..|a|] == a && (b + rest)[..|a|] == b;
  }

  // What is written for a word of text.
  function WordEvents(top: Tag?, font: Font, permalink: bool): seq<Event> {
    var link := if permalink then [A] else [];
    (if top != null && top.tag == Section then [Start(P)] else [])
    + Starts(FontTags(font)) + Starts(link) + [Text] + Ends(link + FontTags(font))
  }

  lemma NothingFrom(ts: seq<Tag>, cl: seq<bool>)
    requires |ts| == |cl|
    ensures OpenFrom(ts, cl, |ts|) == [] && Behind(ts, null) == |ts|
  {
  }

  lemma NothingOpen(ks: seq<Kind>)
    requires ks == []
    ensures Count(ks, Indented) == 0 && Count(ks, NotIndented) == 0
  {
  }

  // The paragraph that print_otag() opens around a phrase.
  function Paragraph(k: Kind, top: Tag?): seq<Kind> {
    if InPhrase(k) && ToPhrase(k) && top != null && top.tag == Section then [P] else []
  }

  lemma PushFreed(t: Tag, ts: seq<Tag>)
    requires NoneFreed(ts) && !t.freed
    ensures NoneFreed([t] + ts)
  {
  }

  lemma PushChain(t: Tag, ts: seq<Tag>)
    requires Chain(ts) && t.below == ts && t.next == FirstOf(ts) && !t.closed
    ensures Chain([t] + ts) && OpenIn([t] + ts) == [t.tag] + OpenIn(ts)
  {
    PushOpen(t, ts);
    hide OpenIn;
    var r := [t] + ts;
    assert r[1..] == ts;
    forall i | 0 <= i < |r|
      ensures r[i].below == r[i + 1..] && r[i].next == FirstOf(r[i + 1..])
    {
      if i > 0 {
        var j := i - 1;
        assert r[i] == ts[j] && r[i + 1..] == ts[j + 1..];
      }
    }
  }

  lemma PushOpen(t: Tag, ts: seq<Tag>)
    requires !t.closed
    ensures OpenIn([t] + ts) == [t.tag] + OpenIn(ts)
  {
    var r := [t] + ts;
    assert Kinds(r)[1..] == Kinds(ts) && Flags(r)[1..] == Flags(ts);
  }

  // How many tags print_stagq() closes.
  ghost function StopAt(ts: seq<Tag>, suntil: Tag?): (n: nat)
    ensures n <= |ts|
  {
    if ts == [] || ts[0] == suntil || (TagAt(ts, 1) == suntil && (ts[0].tag == P || ts[0].tag == Pre)) then 0
    else 1 + StopAt(ts[1..], suntil)
  }

  lemma {:induction false} StopHere(ts: seq<Tag>, suntil: Tag?, p: nat)
    requires p <= StopAt(ts, suntil) && p < |ts|
    ensures p == StopAt(ts, suntil) <==>
              ts[p] == suntil || (TagAt(ts, p + 1) == suntil && (ts[p].tag == P || ts[p].tag == Pre))
  {
    if p > 0 {
      StopHere(ts[1..], suntil, p - 1);
      assert ts[1..][p - 1] == ts[p] && TagAt(ts[1..], p) == TagAt(ts, p + 1);
    }
  }

  // It stops right at the tag, or at a paragraph just above it.
  lemma {:induction false} StopsAbove(ts: seq<Tag>, suntil: Tag, q: nat)
    requires q < |ts| && ts[q] == suntil && forall i :: 0 <= i < q ==> ts[i] != suntil
    ensures
      var p := StopAt(ts, suntil);
      p == if q > 0 && (ts[q - 1].tag == P || ts[q - 1].tag == Pre) then q - 1 else q
  {
    if q > 0 {
      assert ts[1..][q - 1] == suntil;
      StopsAbove(ts[1..], suntil, q - 1);
    }
  }

  // Some tag is no phrase.
  ghost predicate SomeFlow(ts: seq<Tag>) {
    exists i :: 0 <= i < |ts| && !InPhrase(ts[i].tag)
  }

  // How many tags of phrases are on top of the stack.
  ghost function Phrases(ts: seq<Tag>): (n: nat)
    ensures n <= |ts|
  {
    if ts == [] || !InPhrase(ts[0].tag) then 0 else 1 + Phrases(ts[1..])
  }

  // How many tags html_close_paragraph() closes.
  ghost function ParagraphEnd(ts: seq<Tag>): (n: nat)
    ensures n <= |ts|
  {
    var n := Phrases(ts);
    if n < |ts| && ToPhrase(ts[n].tag) then n + 1 else n
  }

  lemma {:induction false} AnyFlow(ts: seq<Tag>)
    requires SomeFlow(ts)
    ensures Phrases(ts) < |ts|
  {
    if InPhrase(ts[0].tag) {
      var i :| 0 <= i < |ts| && !InPhrase(ts[i].tag);
      assert ts[1..][i - 1] == ts[i];
      AnyFlow(ts[1..]);
    }
  }

  lemma {:induction false} PhraseHere(ts: seq<Tag>, p: nat)
    requires p <= Phrases(ts) < |ts|
    ensures p == Phrases(ts) <==> !InPhrase(ts[p].tag)
  {
    hide InPhrase;
    if p > 0 {
      PhraseHere(ts[1..], p - 1);
      assert ts[1..][p - 1] == ts[p];
    }
  }

  // What is open below the first p tags.
  ghost function OpenFrom(ts: seq<Tag>, cl: seq<bool>, p: nat): seq<Kind>
    requires p <= |ts| == |cl|
  {
    Unclosed(Kinds(ts[p..]), cl[p..])
  }

  ghost function TagAt(ts: seq<Tag>, p: nat): Tag? {
    if p < |ts| then ts[p] else null
  }

  function Ends(ks: seq<Kind>): (es: seq<Event>)
    ensures |es| == |ks| && forall i :: 0 <= i < |ks| ==> es[i] == End(ks[i])
  {
    seq(|ks|, i requires 0 <= i < |ks| => End(ks[i]))
  }

  // The number of tags down to this one, or of all tags.
  ghost function Behind(ts: seq<Tag>, until: Tag?): (n: nat)
    ensures n <= |ts|
    ensures forall i :: 0 <= i < n - 1 ==> ts[i] != until
    ensures until != null && until in ts ==> n > 0 && ts[n - 1] == until
    ensures until == null || until !in ts ==> n == |ts|
  {
    if ts == [] then 0
    else if ts[0] == until then 1
    else
      1 + Behind(ts[1..], until)
  }

  lemma SuffixFreed(ts: seq<Tag>, n: nat)
    requires NoneFreed(ts) && n <= |ts|
    ensures NoneFreed(ts[n..])
  {
  }

  lemma NoneClosed(ts: seq<Tag>)
    ensures AllClosed(ts, 0)
  {
  }

  // What is left when tag k and those on top of it are removed.
  lemma Popped(ts: seq<Tag>, k: nat, metaf: Tag?, tblt: Tag?) returns (rest: seq<Tag>)
    requires Chain(ts) && NoneFreed(ts) && k < |ts| && AllClosed(ts, k + 1)
    ensures rest == ts[k + 1..] == ListOf(ts[k].next)
    ensures Chain(rest) && NoneFreed(rest) && OpenIn(rest) == OpenIn(ts) && ts[k] !in rest
    ensures metaf != null && metaf in ts && !metaf.closed ==> metaf in rest
    ensures tblt != null && tblt in ts && !tblt.closed ==> tblt in rest
  {
    hide Unclosed, OpenIn, Kinds, Flags;
    rest := ts[k + 1..];
    SuffixFreed(ts, k + 1);
    NextTag(ts, k);
    ChainSuffix(ts, k + 1);
    OpenBelow(ts, k + 1);
    StillOpen(ts, k + 1, metaf);
    StillOpen(ts, k + 1, tblt);
    SuffixKept(ts, k);
  }

  lemma SuffixKept(ts: seq<Tag>, k: nat)
    requires Chain(ts) && k < |ts|
    ensures ts[k] !in ts[k + 1..]
  {
    Distinct(ts, k);
  }

  lemma StillOpen(ts: seq<Tag>, n: nat, t: Tag?)
    requires AllClosed(ts, n)
    ensures t != null && t in ts && !t.closed ==> t in ts[n..]
  {
    if t != null && t in ts && !t.closed {
      var i :| 0 <= i < |ts| && ts[i] == t;
      assert ts[n..][i - n] == t;
    }
  }

  lemma Distinct(ts: seq<Tag>, k: nat)
    requires Chain(ts) && k < |ts|
    ensures forall j :: 0 <= j < |ts| && j != k ==> ts[j] != ts[k]
  {
    ChainSuffix(ts, k);
  }

  lemma IsOpen(ts: seq<Tag>, cl: seq<bool>)
    requires cl == Flags(ts)
    ensures OpenIn(ts) == Unclosed(Kinds(ts), cl)
  {
  }

  lemma StepDown(ts: seq<Tag>, until: Tag?, p: nat)
    requires p < Behind(ts, until)
    ensures ts[p] == until ==> p + 1 == Behind(ts, until)
    ensures p + 1 == Behind(ts, until) && ts[p] != until ==> p + 1 == |ts|
  {
    hide Behind;
    if until != null && until in ts {
      assert ts[Behind(ts, until) - 1] == until;
    }
  }

  lemma NextTag(ts: seq<Tag>, k: nat)
    requires Chain(ts) && k < |ts|
    ensures ts[k].next == FirstOf(ts[k + 1..]) == TagAt(ts, k + 1)
  {
  }

  lemma FromAll(ts: seq<Tag>)
    ensures OpenFrom(ts, Flags(ts), 0) == OpenIn(ts)
  {
    assert ts[0..] == ts && Flags(ts)[0..] == Flags(ts);
  }

  lemma FromNext(ts: seq<Tag>, p: nat)
    requires p < |ts|
    ensures OpenFrom(ts, Flags(ts), p) == (if ts[p].closed then [] else [ts[p].tag]) + OpenFrom(ts, Flags(ts), p + 1)
  {
    var cl := Flags(ts);
    assert Kinds(ts[p..])[1..] == Kinds(ts[p + 1..]) && cl[p..][1..] == cl[p + 1..];
  }

  lemma FromEnd(ts: seq<Tag>)
    ensures OpenFrom(ts, Flags(ts), |ts|) == []
  {
  }

  lemma {:induction false} UnclosedSplit(ks: seq<Kind>, cl: seq<bool>, p: nat)
    requires p <= |ks| == |cl|
    ensures Unclosed(ks, cl) == Unclosed(ks[..p], cl[..p]) + Unclosed(ks[p..], cl[p..])
  {
    if p == 0 {
      assert ks[0..] == ks && cl[0..] == cl;
    } else {
      UnclosedSplit(ks[1..], cl[1..], p - 1);
      assert ks[1..][..p - 1] == ks[..p][1..] && cl[1..][..p - 1] == cl[..p][1..];
      assert ks[1..][p - 1..] == ks[p..] && cl[1..][p - 1..] == cl[p..];
    }
  }
}
