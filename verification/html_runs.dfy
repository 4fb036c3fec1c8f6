// Runs of the functions of userland/mandoc/html.c that open and close tags.
module HtmlRuns {
  import opened HtmlTags
  import opened Options

  // The calls of these functions, with the number of the call of print_otag()
  // that returned the tag they are about.
  datatype Call =
    | Start_(k: Kind) | Close(n: nat) | Above(n: nat) | Paragraph_ | Hold(n: nat) | Drop(n: nat)
    | Word(font: Font, permalink: bool)

  // The stack, its closed tags, the references to each tag, and the output.
  datatype State = State(ts: seq<Tag>, cl: seq<bool>, rs: seq<nat>, out: seq<Event>)

  ghost predicate Fits(a: State) {
    |a.ts| == |a.cl| == |a.rs| && forall i, j :: 0 <= i < j < |a.ts| ==> a.ts[i] != a.ts[j]
  }

  ghost function StateOf(h: HtmlOut): (a: State)
    reads h, ListOf(h.tag)`closed, ListOf(h.tag)`refcnt
    ensures |a.ts| == |a.cl| == |a.rs|
  {
    State(h.Stack(), Flags(h.Stack()), Counts(h.Stack()), h.out)
  }

  // The elements that are open.
  ghost function OpenOf(a: State): seq<Kind>
    requires Fits(a)
  {
    Unclosed(Kinds(a.ts), a.cl)
  }

  /*** what a call does **********************************************************/

  // Flow content may follow where these elements are open.
  predicate FlowOn(open: seq<Kind>) {
    open == [] || !ToPhrase(open[0])
  }

  ghost predicate FlowIn(a: State)
    requires Fits(a)
  {
    FlowOn(OpenOf(a))
  }

  // What the source demands for a call.
  ghost predicate Allowed(call: Call, a: State)
    requires Fits(a)
  {
    match call
    case Start_(k) =>
      if !InPhrase(k) then FlowIn(a)
      else ToPhrase(k) ==> a.ts != [] && (a.ts[0].tag == Section ==> FlowIn(a))
    case Paragraph_ => SomeFlow(a.ts)
    case Word(_, _) => a.ts != [] && (a.ts[0].tag == Section ==> FlowIn(a))
    case _ => true
  }

  // The elements whose tags it pushes.
  ghost function Pushed(call: Call, a: State): seq<Kind> {
    match call
    case Start_(k) => (if NoStack(k) then [] else [k]) + Paragraph(k, FirstOf(a.ts))
    case Word(_, _) => if a.ts != [] && a.ts[0].tag == Section then [P] else []
    case _ => []
  }

  // The number of tags that are closed afterwards, from the top of the stack.
  ghost function Reached(call: Call, a: State, at: Tag?): (p: nat)
    ensures p <= |a.ts|
  {
    match call
    case Close(_) => Behind(a.ts, at)
    case Above(_) => StopAt(a.ts, at)
    case Paragraph_ => ParagraphEnd(a.ts)
    case _ => 0
  }

  // The references afterwards.
  ghost function Recounted(call: Call, a: State, at: Tag?): (rs: seq<nat>)
    requires |a.rs| == |a.ts|
    ensures |rs| == |a.ts|
  {
    seq(|a.ts|, i requires 0 <= i < |a.ts| =>
      if a.ts[i] != at then a.rs[i]
      else if call.Hold? then a.rs[i] + 1
      else if call.Drop? && a.rs[i] > 0 then a.rs[i] - 1
      else a.rs[i])
  }

  ghost function Written(call: Call, a: State, at: Tag?): seq<Event>
    requires Fits(a)
  {
    match call
    case Start_(k) =>
      if NoStack(k) then Starts(Pushed(call, a)) + [Empty(k)] else Starts(Pushed(call, a))
    case Word(font, permalink) => WordEvents(FirstOf(a.ts), font, permalink)
    case _ =>
      var p := Reached(call, a, at);
      Ends(Unclosed(Kinds(a.ts[..p]), a.cl[..p]))
  }

  // In the state a, a call about the tag at leads to the state b.
  ghost predicate Follows(call: Call, at: Tag?, a: State, b: State)
    requires Fits(a)
  {
    var ks, p := Pushed(call, a), Reached(call, a, at);
    var n, c := |ks|, Cut(a.rs, p);
    && |b.ts| == n + |a.ts| - c && b.ts[n..] == a.ts[c..] && Kinds(b.ts[..n]) == ks
    && (forall x :: x in b.ts[..n] ==> x !in a.ts)
    && b.cl == AllOpen(n) + ClosedTo(a.cl, p)[c..]
    && b.rs == NoReferences(n) + Recounted(call, a, at)[c..]
    && b.out == a.out + Written(call, a, at)
  }

  function AllOpen(n: nat): (cl: seq<bool>)
    ensures |cl| == n
  {
    seq(n, _ => false)
  }

  function NoReferences(n: nat): (rs: seq<nat>)
    ensures |rs| == n
  {
    seq(n, _ => 0)
  }

  /*** one call ******************************************************************/

  ghost function Only(t: Tag?): set<Tag> {
    if t == null then {} else {t}
  }

  // The tags below the first c.
  lemma Suffixes(ts: seq<Tag>, c: nat)
    requires c <= |ts|
    ensures Flags(ts[c..]) == Flags(ts)[c..] && Counts(ts[c..]) == Counts(ts)[c..]
  {
    hide Flags, Counts;
  }

  lemma Joined(pushed: seq<Tag>, ts: seq<Tag>)
    requires Unused(pushed)
    ensures Flags(pushed + ts) == AllOpen(|pushed|) + Flags(ts)
    ensures Counts(pushed + ts) == NoReferences(|pushed|) + Counts(ts)
  {
    hide Flags, Counts;
  }

  lemma ValidFits(h: HtmlOut)
    requires h.Valid()
    ensures Fits(StateOf(h)) && OpenOf(StateOf(h)) == h.Open() && Replay(h.out) == Some(h.Open())
    ensures h.tag == FirstOf(h.Stack()) && (h.tag == null <==> h.Stack() == [])
  {
    hide Flags, Counts, Kinds, Unclosed;
    var ts := h.Stack();
    forall i, j | 0 <= i < j < |ts|
      ensures ts[i] != ts[j]
    {
      Distinct(ts, i);
    }
  }

  // A call has closed the first p tags.
  lemma HasClosed(h: HtmlOut, call: Call, at: Tag?, a: State)
    requires Fits(a) && Pushed(call, a) == [] && !call.Hold? && !call.Drop? && !call.Start_? && !call.Word?
    requires h.Walked(a.ts, a.cl, a.rs, Reached(call, a, at)) && h.out == a.out + Written(call, a, at)
    ensures Follows(call, at, a, StateOf(h))
  {
    hide Flags, Counts, Kinds, Unclosed, Behind, StopAt, ParagraphEnd, Written, Cut;
    var p := Reached(call, a, at);
    Suffixes(a.ts, Cut(a.rs, p));
    assert Recounted(call, a, at) == a.rs;
    var b := StateOf(h);
    assert b.ts[0..] == b.ts && b.ts[..0] == [] && AllOpen(0) + b.cl == b.cl && NoReferences(0) + b.rs == b.rs;
  }

  // A call has pushed these tags.
  lemma HasPushed(h: HtmlOut, call: Call, a: State, pushed: seq<Tag>)
    requires Fits(a) && (call.Start_? || call.Word?) && Kinds(pushed) == Pushed(call, a) && Unused(pushed)
    requires h.Stack() == pushed + a.ts && Flags(a.ts) == a.cl && Counts(a.ts) == a.rs
    requires (forall x :: x in pushed ==> x !in a.ts) && h.out == a.out + Written(call, a, null)
    ensures Follows(call, null, a, StateOf(h))
  {
    hide Flags, Counts, Kinds, Unclosed, Written, Pushed;
    Joined(pushed, a.ts);
    assert Recounted(call, a, null) == a.rs && ClosedTo(a.cl, 0) == a.cl;
    var b := StateOf(h);
    assert b.ts[|pushed|..] == a.ts && b.ts[..|pushed|] == pushed;
    assert a.ts[0..] == a.ts && a.cl[0..] == a.cl && a.rs[0..] == a.rs;
  }

  // A call has changed the references to a tag.
  lemma HasCounted(h: HtmlOut, call: Call, at: Tag?, a: State)
    requires Fits(a) && (call.Hold? || call.Drop?)
    requires h.Stack() == a.ts && Flags(a.ts) == a.cl && h.out == a.out
    requires forall i :: 0 <= i < |a.ts| ==> a.ts[i].refcnt == Recounted(call, a, at)[i]
    ensures Follows(call, at, a, StateOf(h))
  {
    hide Flags, Counts, Kinds, Written, Recounted;
    assert Counts(a.ts) == Recounted(call, a, at) && ClosedTo(a.cl, 0) == a.cl;
    var b := StateOf(h);
    assert b.ts[0..] == b.ts && b.ts[..0] == [] && AllOpen(0) + b.cl == b.cl && NoReferences(0) + b.rs == b.rs;
    assert a.ts[0..] == a.ts && a.cl[0..] == a.cl && b.rs[0..] == b.rs;
    NothingWritten(call, a, at);
  }

  lemma NothingWritten(call: Call, a: State, at: Tag?)
    requires Fits(a) && (call.Hold? || call.Drop?)
    ensures a.out + Written(call, a, at) == a.out
  {
  }

  // What was ended is what had been open in the first p tags.
  lemma EndedWritten(a: State, call: Call, at: Tag?, ks: seq<Kind>, open: seq<Kind>, out: seq<Event>)
    requires Fits(a) && !call.Start_? && !call.Word? && open == OpenFrom(a.ts, a.cl, Reached(call, a, at))
    requires Ended(OpenOf(a), a.out, ks, open, out)
    ensures out == a.out + Written(call, a, at)
  {
    hide Unclosed, Behind, StopAt, ParagraphEnd;
    var p := Reached(call, a, at);
    var above := Unclosed(Kinds(a.ts[..p]), a.cl[..p]);
    UnclosedSplit(Kinds(a.ts), a.cl, p);
    assert Kinds(a.ts)[..p] == Kinds(a.ts[..p]) && Kinds(a.ts)[p..] == Kinds(a.ts[p..]);
    SameEnd(above, ks, open);
  }

  // One call about the tag at, unless it fails; the tag returned, if any.
  method Perform(h: HtmlOut, call: Call, at: Tag?) returns (done: bool, t: Tag?)
    requires h.Valid() && h.metaf == null
    requires call.Start_? || call.Word? || call.Paragraph_? ==> at == null
    modifies h, h.Tags(), Only(at)
    ensures h.Valid() && (done ==> h.metaf == null)
    ensures forall x :: x in h.Tags() ==> fresh(x) || x in old(h.Tags())
    ensures t == (if done && call.Start_? && !NoStack(call.k) then h.tag else null) && (t == null || fresh(t))
    ensures Fits(old(StateOf(h))) && (done <==> Allowed(call, old(StateOf(h))))
    ensures if done then Follows(call, at, old(StateOf(h)), StateOf(h)) else StateOf(h) == old(StateOf(h))
  {
    hide HtmlOut.OtagAllowed, HtmlOut.FlowAllowed, HtmlOut.Open, HtmlOut.Valid, Unclosed, Flags, Kinds, Counts;
    hide HtmlOut.Tags, Follows, Allowed, Fits, StateOf;
    t := null;
    ghost var a := StateOf(h);
    ValidFits(h);
    AllowedNow(h, call, a);
    done := MayCall(h, call);
    if done {
      match call {
        case Start_(k) => t := Begin(h, k);
        case Hold(_) => Recount(h, call, at);
        case Drop(_) => Recount(h, call, at);
        case Word(font, permalink) => Speak(h, font, permalink);
        case _ => Finish(h, call, at);
      }
    }
  }

  // Does the source accept the call?
  method MayCall(h: HtmlOut, call: Call) returns (ok: bool)
    requires h.Valid()
    ensures
      match call
      case Start_(k) => ok <==> h.OtagAllowed(k)
      case Paragraph_ => ok <==> SomeFlow(h.Stack())
      case Word(_, _) => ok <==> h.tag != null && (h.tag.tag == Section ==> h.FlowAllowed())
      case _ => ok
  {
    hide HtmlOut.OtagAllowed, HtmlOut.FlowAllowed, HtmlOut.Valid, SomeFlow;
    match call
    case Start_(k) => ok := h.MayOpen(k);
    case Paragraph_ => ok := h.HasFlow();
    case Word(_, _) =>
      var flow := h.MayFlow();
      ok := h.tag != null && (h.tag.tag == Section ==> flow);
    case _ => ok := true;
  }

  // A call that closes tags.
  method Finish(h: HtmlOut, call: Call, at: Tag?)
    requires h.Valid() && (call.Close? || call.Above? || (call.Paragraph_? && SomeFlow(h.Stack())))
    modifies h, h.Tags()`closed, h.Tags()`freed
    ensures h.Valid() && (h.metaf == old(h.metaf) || h.metaf == null) && h.Tags() <= old(h.Tags())
    ensures Fits(old(StateOf(h))) && Follows(call, at, old(StateOf(h)), StateOf(h))
  {
    hide HtmlOut.Open, HtmlOut.Valid, Unclosed, Flags, Kinds, Counts, Behind, StopAt, ParagraphEnd, Ends, OpenFrom;
    hide HtmlOut.Tags, HtmlOut.Walked, Follows, Fits, Written, Cut, Ended, SomeFlow;
    ghost var a, ks, p := StateOf(h), [], 0;
    ValidFits(h);
    match call {
      case Close(_) => ks, p := h.CloseUpTo(at);
      case Above(_) => ks, p := h.CloseAbove(at);
      case Paragraph_ => ks, p := h.CloseParagraph();
    }
    EndedWritten(a, call, at, ks, h.Open(), h.out);
    HasClosed(h, call, at, a);
  }

  // A call that changes the references to a tag.
  method Recount(h: HtmlOut, call: Call, at: Tag?)
    requires h.Valid() && (call.Hold? || call.Drop?)
    modifies Only(at)`refcnt
    ensures h.Valid() && h.Tags() == old(h.Tags()) && h.metaf == old(h.metaf)
    ensures Fits(old(StateOf(h))) && Follows(call, at, old(StateOf(h)), StateOf(h))
  {
    hide HtmlOut.Open, HtmlOut.Valid, Unclosed, Flags, Kinds, Counts, Follows;
    ghost var a := StateOf(h);
    ValidFits(h);
    if at != null {
      if call.Hold? {
        h.Refer(at);
      } else if at.refcnt > 0 {
        h.Release(at);
      }
    }
    HasCounted(h, call, at, a);
  }

  lemma AllowedNow(h: HtmlOut, call: Call, a: State)
    requires h.Valid() && a == StateOf(h) && Fits(a)
    ensures
      match call
      case Start_(k) => Allowed(call, a) <==> h.OtagAllowed(k)
      case Paragraph_ => Allowed(call, a) <==> SomeFlow(h.Stack())
      case Word(_, _) => Allowed(call, a) <==> h.tag != null && (h.tag.tag == Section ==> h.FlowAllowed())
      case _ => Allowed(call, a)
  {
    hide Flags, Counts, Kinds, Unclosed, InPhrase, ToPhrase, Nested, NoneFreed, Chain;
    ValidFits(h);
  }

  lemma StartIs(a: State, k: Kind)
    requires Fits(a)
    ensures Pushed(Start_(k), a) == (if NoStack(k) then [] else [k]) + Paragraph(k, FirstOf(a.ts))
    ensures
      var starts := a.out + Starts(Pushed(Start_(k), a));
      a.out + Written(Start_(k), a, null) == if NoStack(k) then starts + [Empty(k)] else starts
  {
    hide Starts, NoStack, Paragraph;
  }

  method Begin(h: HtmlOut, k: Kind) returns (t: Tag?)
    requires h.Valid() && h.OtagAllowed(k)
    modifies h`tag, h`out, h`indent, h`noindent
    ensures h.Valid() && forall x :: x in h.Tags() ==> fresh(x) || x in old(h.Tags())
    ensures t == (if NoStack(k) then null else h.tag) && (t == null || fresh(t))
    ensures Fits(old(StateOf(h))) && Follows(Start_(k), null, old(StateOf(h)), StateOf(h))
  {
    hide HtmlOut.OtagAllowed, HtmlOut.Open, HtmlOut.Valid, NoStack, Paragraph, Written, Pushed, Unused;
    hide Starts, Flags, Counts, Kinds, Follows, Fits;
    ghost var a := StateOf(h);
    ValidFits(h);
    ghost var pushed;
    t, pushed := h.Otag(k);
    StartIs(a, k);
    assert t != null ==> pushed[0] in pushed;
    HasPushed(h, Start_(k), a, pushed);
  }

  lemma WordIs(a: State, font: Font, permalink: bool)
    requires Fits(a)
    ensures Written(Word(font, permalink), a, null) == WordEvents(FirstOf(a.ts), font, permalink)
    ensures Pushed(Word(font, permalink), a) == if a.ts != [] && a.ts[0].tag == Section then [P] else []
  {
  }

  method Speak(h: HtmlOut, font: Font, permalink: bool)
    requires h.Valid() && h.metaf == null && h.tag != null && (h.tag.tag == Section ==> h.FlowAllowed())
    modifies h, h.Tags()`closed, h.Tags()`freed
    ensures h.Valid() && h.metaf == null && forall x :: x in h.Tags() ==> fresh(x) || x in old(h.Tags())
    ensures Fits(old(StateOf(h))) && Follows(Word(font, permalink), null, old(StateOf(h)), StateOf(h))
  {
    hide HtmlOut.FlowAllowed, HtmlOut.Open, HtmlOut.Valid, WordEvents, Flags, Counts, Kinds, Follows, Fits, Written;
    hide Pushed, Unused;
    ghost var a := StateOf(h);
    ValidFits(h);
    WordIs(a, font, permalink);
    ghost var pushed := h.PrintText(font, permalink);
    HasPushed(h, Word(font, permalink), a, pushed);
  }

  /*** what a reader sees ********************************************************/

  // What a reader sees: everything except for end tags, and for paragraphs,
  // which the program may insert.
  function Content(out: seq<Event>): seq<Event> {
    if out == [] then []
    else
      var e := out[|out| - 1];
      Content(out[..|out| - 1]) + if e.End? || e == Start(P) then [] else [e]
  }

  function Asked(call: Call): seq<Event> {
    match call
    case Start_(k) => if NoStack(k) then [Empty(k)] else if k == P then [] else [Start(k)]
    case Word(font, permalink) => Starts(FontTags(font)) + (if permalink then [Start(A)] else []) + [Text]
    case _ => []
  }

  function AskedAll(calls: seq<Call>): seq<Event> {
    if calls == [] then [] else AskedAll(calls[..|calls| - 1]) + Asked(calls[|calls| - 1])
  }

  lemma {:induction false} ContentPlus(a: seq<Event>, b: seq<Event>)
    ensures Content(a + b) == Content(a) + Content(b)
  {
    if b == [] {
      assert a + b == a;
    } else {
      var n, all := |b| - 1, a + b;
      ContentPlus(a, b[..n]);
      assert all[..|all| - 1] == a + b[..n] && all[|all| - 1] == b[n];
      var more := if b[n].End? || b[n] == Start(P) then [] else [b[n]];
      assert Content(b) == Content(b[..n]) + more && Content(all) == Content(a + b[..n]) + more;
    }
  }

  lemma {:induction false} EndsHidden(ks: seq<Kind>)
    ensures Content(Ends(ks)) == []
  {
    if ks != [] {
      EndsHidden(ks[..|ks| - 1]);
      assert Ends(ks)[..|ks| - 1] == Ends(ks[..|ks| - 1]);
    }
  }

  lemma ContentOne(e: Event)
    ensures Content([e]) == if e.End? || e == Start(P) then [] else [e]
  {
  }

  lemma {:induction false} StartsShown(ks: seq<Kind>)
    requires P !in ks
    ensures Content(Starts(ks)) == Starts(ks)
  {
    if ks != [] {
      StartsShown(ks[1..]);
      ContentPlus(Starts(ks[1..]), [Start(ks[0])]);
      ContentOne(Start(ks[0]));
    }
  }

  // A call writes what is asked for, end tags, and paragraphs.
  lemma WritesAsked(call: Call, a: State, at: Tag?)
    requires Fits(a)
    ensures Content(Written(call, a, at)) == Asked(call)
  {
    match call
    case Start_(k) => StartShown(k, FirstOf(a.ts));
    case Word(font, permalink) => WordShown(FirstOf(a.ts), font, permalink);
    case _ =>
      var p := Reached(call, a, at);
      EndsHidden(Unclosed(Kinds(a.ts[..p]), a.cl[..p]));
  }

  lemma StartShown(k: Kind, top: Tag?)
    ensures
      var ks := (if NoStack(k) then [] else [k]) + Paragraph(k, top);
      Content(if NoStack(k) then Starts(ks) + [Empty(k)] else Starts(ks)) == Asked(Start_(k))
  {
    hide NoStack, InPhrase, ToPhrase, Content, Starts;
    var para := Paragraph(k, top);
    StartsOf(para);
    ContentOne(Start(P));
    ContentNone();
    if NoStack(k) {
      assert [] + para == para;
      ContentPlus(Starts(para), [Empty(k)]);
      ContentOne(Empty(k));
    } else {
      StartsNext(k, para);
      ContentPlus(Starts(para), [Start(k)]);
      ContentOne(Start(k));
    }
  }

  lemma WordShown(top: Tag?, font: Font, permalink: bool)
    ensures Content(WordEvents(top, font, permalink)) == Asked(Word(font, permalink))
  {
    hide Starts, Content, FontTags;
    var para := if top != null && top.tag == Section then [Start(P)] else [];
    var link := if permalink then [A] else [];
    var fonts := Starts(FontTags(font));
    assert P !in FontTags(font) by {
      FontNoParagraph(font);
    }
    StartsShown(FontTags(font));
    StartsShown(link);
    StartsOf(link);
    ContentOne(Start(P));
    ContentOne(Text);
    ContentNone();
    EndsHidden(link + FontTags(font));
    ContentPlus(para, fonts);
    ContentPlus(para + fonts, Starts(link));
    ContentPlus(para + fonts + Starts(link), [Text]);
    ContentPlus(para + fonts + Starts(link) + [Text], Ends(link + FontTags(font)));
  }

  lemma ContentNone()
    ensures Content([]) == []
  {
  }

  lemma FontNoParagraph(font: Font)
    ensures P !in FontTags(font)
  {
  }

  lemma StartsNext(k: Kind, ks: seq<Kind>)
    ensures Starts([k] + ks) == Starts(ks) + [Start(k)]
  {
    assert ([k] + ks)[1..] == ks;
  }

  /*** what stays open ***********************************************************/

  // The elements pushed are open, and those below the tags closed as before.
  lemma LeftOpen(call: Call, at: Tag?, a: State, b: State)
    requires Fits(a) && Follows(call, at, a, b)
    ensures |b.ts| == |b.cl| == |b.rs|
    ensures Unclosed(Kinds(b.ts), b.cl) == Pushed(call, a) + OpenFrom(a.ts, a.cl, Reached(call, a, at))
  {
    hide Unclosed, Kinds, Pushed, Reached, Written, Recounted, OpenFrom;
    var n, p := |Pushed(call, a)|, Reached(call, a, at);
    assert b.ts == b.ts[..n] + a.ts[Cut(a.rs, p)..];
    OpenOn(b.ts[..n], a.ts, a.cl, Cut(a.rs, p), p);
  }

  lemma OpenOn(pushed: seq<Tag>, ts: seq<Tag>, cl: seq<bool>, c: nat, p: nat)
    requires c <= p <= |ts| == |cl|
    ensures Unclosed(Kinds(pushed + ts[c..]), AllOpen(|pushed|) + ClosedTo(cl, p)[c..])
         == Kinds(pushed) + OpenFrom(ts, cl, p)
  {
    hide Unclosed, Kinds;
    var n, rest, open := |pushed|, ts[c..], ClosedTo(cl, p)[c..];
    var ks, flags := Kinds(pushed + rest), AllOpen(n) + open;
    UnclosedSplit(ks, flags, n);
    assert ks[..n] == Kinds(pushed) && ks[n..] == Kinds(rest) && flags[..n] == AllOpen(n) && flags[n..] == open;
    NoneClosedYet(Kinds(pushed));
    UnclosedBelow(Kinds(rest), open, p - c);
    assert Kinds(rest)[p - c..] == Kinds(ts[p..]) && open[p - c..] == cl[p..];
  }

  lemma {:induction false} NoneClosedYet(ks: seq<Kind>)
    ensures Unclosed(ks, AllOpen(|ks|)) == ks
  {
    if ks != [] {
      NoneClosedYet(ks[1..]);
      assert AllOpen(|ks|)[1..] == AllOpen(|ks| - 1);
    }
  }

  // Closing up to a tag leaves what is open below it if it is still on the
  // stack, and nothing otherwise.
  lemma ClosesOrAll(n: nat, x: Tag, a: State, b: State)
    requires Fits(a) && Follows(Close(n), x, a, b)
    ensures |b.ts| == |b.cl|
    ensures forall q :: 0 <= q < |a.ts| && a.ts[q] == x ==>
              Unclosed(Kinds(b.ts), b.cl) == OpenFrom(a.ts, a.cl, q + 1)
    ensures x !in a.ts ==> Unclosed(Kinds(b.ts), b.cl) == []
  {
    hide Unclosed, Kinds, Behind, Follows;
    LeftOpen(Close(n), x, a, b);
    if x in a.ts {
      var p := Behind(a.ts, x);
      assert a.ts[p - 1] == x;
    } else {
      NothingFrom(a.ts, a.cl);
    }
  }

  // No tag without references is among those that the call closes at or below
  // the tag x.
  ghost predicate Spares(call: Call, at: Tag?, a: State, x: Tag)
    requires Fits(a)
  {
    forall i, j :: 0 <= i <= j < Reached(call, a, at) && a.ts[i] == x ==> a.rs[j] > 0
  }

  lemma {:induction false} CutAbove(rs: seq<nat>, p: nat, i: nat)
    requires i <= p <= |rs|
    ensures Cut(rs, p) <= i <==> forall j :: i <= j < p ==> rs[j] > 0
  {
    if i < p {
      CutAbove(rs, p - 1, i);
    }
  }

  // A call leaves the tag on the stack exactly if it spares it.
  lemma StaysIff(call: Call, at: Tag?, a: State, b: State, x: Tag)
    requires Fits(a) && Follows(call, at, a, b) && x in a.ts
    ensures x in b.ts <==> Spares(call, at, a, x)
  {
    hide Reached, Cut, Written, Recounted, Pushed, Kinds;
    var p, n := Reached(call, a, at), |Pushed(call, a)|;
    var c := Cut(a.rs, p);
    var i :| 0 <= i < |a.ts| && a.ts[i] == x;
    assert b.ts == b.ts[..n] + a.ts[c..];
    InSuffix(a.ts, c, i);
    if i <= p {
      CutAbove(a.rs, p, i);
    }
  }

  lemma InSuffix(ts: seq<Tag>, c: nat, i: nat)
    requires c <= |ts| && i < |ts| && forall j, k :: 0 <= j < k < |ts| ==> ts[j] != ts[k]
    ensures ts[i] in ts[c..] <==> c <= i
  {
    if c <= i {
      assert ts[c..][i - c] == ts[i];
    }
  }

  /*** whole runs *****************************************************************/

  // The tag that call number m has returned.
  ghost function Returned(calls: seq<Call>, states: seq<State>, m: nat): Tag? {
    if m < |calls| && m + 1 < |states| && calls[m].Start_? && !NoStack(calls[m].k) then FirstOf(states[m + 1].ts)
    else null
  }

  // The tag that call number n is about.
  ghost function About(calls: seq<Call>, states: seq<State>, n: nat): Tag?
    requires n < |calls|
  {
    var c := calls[n];
    if (c.Close? || c.Above? || c.Hold? || c.Drop?) && c.n < n then Returned(calls, states, c.n) else null
  }

  // Call number i leads from one state to the next one.
  ghost predicate Step(calls: seq<Call>, states: seq<State>, i: nat) {
    && i < |calls| && i + 1 < |states| && Fits(states[i]) && Allowed(calls[i], states[i])
    && Follows(calls[i], About(calls, states, i), states[i], states[i + 1])
  }

  ghost predicate Runs(calls: seq<Call>, states: seq<State>) {
    && 0 < |states| <= |calls| + 1 && states[0] == State([], [], [], [])
    && forall i :: 0 <= i < |states| - 1 ==> Step(calls, states, i)
  }

  // The output is well nested, and these are its open elements.
  ghost predicate Nests(a: State) {
    Fits(a) && Replay(a.out) == Some(OpenOf(a))
  }

  // In the state c, there is no tag of the state a that is not there in b.
  ghost predicate NoneBack(a: State, b: State, c: State) {
    forall x :: x in a.ts && x in c.ts ==> x in b.ts
  }

  // A tag that has left the stack never comes back.
  ghost predicate NeverBack(states: seq<State>) {
    forall i, j {:trigger states[i], states[j]} :: 0 <= i <= j < |states| - 1 ==>
      NoneBack(states[i], states[j], states[j + 1])
  }

  ghost predicate SparedAt(calls: seq<Call>, states: seq<State>, j: nat, x: Tag) {
    j < |calls| && j < |states| && Fits(states[j]) && Spares(calls[j], About(calls, states, j), states[j], x)
  }

  // A tag is on the stack exactly if all calls have spared it since: it is
  // lost when a tag without references at or below it is closed.
  lemma {:induction false} StaysSince(calls: seq<Call>, states: seq<State>, m: nat, n: nat, x: Tag)
    requires Runs(calls, states) && NeverBack(states) && m <= n < |states| && x in states[m].ts
    ensures x in states[n].ts <==> forall j :: m <= j < n ==> SparedAt(calls, states, j, x)
    decreases n
  {
    hide SparedAt, Step, NeverBack, Runs;
    if m < n {
      StepOf(calls, states, n - 1);
      StaysSince(calls, states, m, n - 1, x);
      StaysNext(calls, states, m, n - 1, x);
    }
  }

  lemma StepOf(calls: seq<Call>, states: seq<State>, i: nat)
    requires Runs(calls, states) && i < |states| - 1
    ensures Step(calls, states, i)
  {
    hide Step;
  }

  lemma StaysNext(calls: seq<Call>, states: seq<State>, m: nat, j: nat, x: Tag)
    requires Step(calls, states, j) && NeverBack(states) && m <= j && j + 1 < |states| && x in states[m].ts
    ensures x in states[j + 1].ts <==> x in states[j].ts && SparedAt(calls, states, j, x)
  {
    hide Spares, About, Follows, Allowed, Fits;
    assert NoneBack(states[m], states[j], states[j + 1]);
    if x in states[j].ts {
      StaysIff(calls[j], About(calls, states, j), states[j], states[j + 1], x);
    }
  }

  // The first n calls have been made.
  ghost predicate Ran(calls: seq<Call>, states: seq<State>, n: nat) {
    && n <= |calls| && |states| == n + 1 && Runs(calls, states) && NeverBack(states)
    && (forall i :: 0 <= i <= n ==> Nests(states[i])) && Content(states[n].out) == AskedAll(calls[..n])
  }

  // Whatever is called in whatever order, the output is well nested and shows
  // what the calls ask for, and it is balanced when everything is closed in
  // the end.  A run ends before call number n if an assertion of the source
  // fails there, or if it would use a null pointer.
  method Run(calls: seq<Call>) returns (h: HtmlOut, n: nat, ghost states: seq<State>)
    ensures Ran(calls, states, n)
    ensures if n < |calls| then !Allowed(calls[n], states[n]) && h.out == states[n].out
            else
              && h.out == states[n].out + Ends(OpenOf(states[n]))
              && Replay(h.out) == Some([]) && Content(h.out) == AskedAll(calls)
  {
    hide HtmlOut.Open, HtmlOut.Valid, Content, Asked, AskedAll, Ends, Allowed, Follows, Fits, Nests, NoneBack;
    hide Flags, Counts, Ran, HeldAre;
    h := new HtmlOut();
    n, states := 0, [StateOf(h)];
    var held: seq<Tag?> := [];
    NothingYet(h, calls);
    while n < |calls|
      invariant n <= |calls| && |states| == n + 1 && Ran(calls, states, n) && states[n] == StateOf(h)
      invariant fresh(h) && h.Valid() && h.metaf == null && forall x :: x in h.Tags() ==> fresh(x)
      invariant |held| == n && HeldAre(held, calls, states)
      invariant forall m {:trigger held[m]} :: 0 <= m < n ==> held[m] == null || fresh(held[m])
    {
      var done, more;
      ghost var b;
      done, more, b := RunNext(h, calls, n, held, states);
      if !done {
        return;
      }
      held, states := held + [more], states + [b];
      n := n + 1;
    }
    ValidNests(h);
    RanAll(calls, states, h.Open());
    ghost var ks, p;
    ks, p := h.CloseAll();
  }

  // The next call of a run.
  method RunNext(h: HtmlOut, calls: seq<Call>, n: nat, held: seq<Tag?>, ghost states: seq<State>)
    returns (done: bool, more: Tag?, ghost b: State)
    requires n < |calls| && |states| == n + 1 && Ran(calls, states, n) && states[n] == StateOf(h)
    requires h.Valid() && h.metaf == null && |held| == n && HeldAre(held, calls, states)
    modifies h, h.Tags(), set t: Tag? | t in held && t != null
    ensures h.Valid() && (forall x :: x in h.Tags() ==> fresh(x) || x in old(h.Tags())) && (more == null || fresh(more))
    ensures if done then
              && h.metaf == null && Ran(calls, states + [b], n + 1) && b == StateOf(h)
              && HeldAre(held + [more], calls, states + [b])
            else !Allowed(calls[n], states[n]) && h.out == states[n].out
  {
    hide HtmlOut.Open, HtmlOut.Valid, Allowed, Follows, Fits, Nests, NoneBack, Flags, Counts, Ran, About, Returned;
    hide HeldAre, NoStack;
    var c := calls[n];
    var at: Tag? := if (c.Close? || c.Above? || c.Hold? || c.Drop?) && c.n < n then held[c.n] else null;
    HeldAbout(calls, states, n, held);
    ValidNests(h);
    ghost var tags := h.Tags();
    done, more := Perform(h, c, at);
    ValidNests(h);
    b := StateOf(h);
    if done {
      forall i | 0 <= i <= n
        ensures NoneBack(states[i], states[n], b)
      {
        forall x | x in states[i].ts && x in b.ts
          ensures x in states[n].ts
        {
          assert old(allocated(x));
          assert x in h.Tags() && x in tags;
        }
        NoneBackIs(states[i], states[n], b);
      }
      RanOn(calls, states, n, b, at);
      MoreHeld(calls, states, n, b, held, more);
    }
  }

  lemma RanOn(calls: seq<Call>, states: seq<State>, n: nat, b: State, at: Tag?)
    requires Ran(calls, states, n) && n < |calls| && Fits(states[n]) && Allowed(calls[n], states[n]) && Nests(b)
    requires at == About(calls, states, n) && Follows(calls[n], at, states[n], b)
    requires forall i :: 0 <= i <= n ==> NoneBack(states[i], states[n], b)
    ensures Ran(calls, states + [b], n + 1)
  {
    hide Follows, Fits, Allowed, Nests, NoneBack, Content, AskedAll, Runs, NeverBack, About;
    OneMore(calls, n, states[n], b, at);
    MoreStates(calls, states, n, b, at);
  }

  lemma RanAll(calls: seq<Call>, states: seq<State>, open: seq<Kind>)
    requires Ran(calls, states, |calls|)
    ensures Content(states[|calls|].out + Ends(open)) == AskedAll(calls)
  {
    EndsShown(states[|calls|].out, open);
    assert calls[..|calls|] == calls;
  }

  lemma ValidNests(h: HtmlOut)
    requires h.Valid()
    ensures Nests(StateOf(h)) && Fits(StateOf(h)) && OpenOf(StateOf(h)) == h.Open() && h.tag == FirstOf(StateOf(h).ts)
  {
    ValidFits(h);
  }

  lemma NothingYet(h: HtmlOut, calls: seq<Call>)
    requires h.tag == null && h.out == []
    ensures Ran(calls, [StateOf(h)], 0) && h.Tags() == {} && HeldAre([], calls, [StateOf(h)])
  {
  }

  lemma EndsShown(out: seq<Event>, open: seq<Kind>)
    ensures Content(out + Ends(open)) == Content(out)
  {
    ContentPlus(out, Ends(open));
    EndsHidden(open);
  }

  lemma OneMore(calls: seq<Call>, n: nat, a: State, b: State, at: Tag?)
    requires n < |calls| && Fits(a) && Content(a.out) == AskedAll(calls[..n]) && Follows(calls[n], at, a, b)
    ensures Content(b.out) == AskedAll(calls[..n + 1])
  {
    hide Written, Asked;
    WritesAsked(calls[n], a, at);
    ContentPlus(a.out, Written(calls[n], a, at));
    assert calls[..n + 1][..n] == calls[..n];
  }

  lemma NoneBackIs(a: State, b: State, c: State)
    requires forall x :: x in a.ts && x in c.ts ==> x in b.ts
    ensures NoneBack(a, b, c)
  {
  }

  // These are the tags that the calls have returned.
  ghost predicate HeldAre(held: seq<Tag?>, calls: seq<Call>, states: seq<State>) {
    |held| + 1 == |states| && forall m :: 0 <= m < |held| ==> held[m] == Returned(calls, states, m)
  }

  lemma HeldAbout(calls: seq<Call>, states: seq<State>, n: nat, held: seq<Tag?>)
    requires HeldAre(held, calls, states) && n == |held| < |calls|
    ensures
      var c := calls[n];
      About(calls, states, n)
      == if (c.Close? || c.Above? || c.Hold? || c.Drop?) && c.n < n then held[c.n] else null
  {
    hide NoStack;
  }

  lemma MoreHeld(calls: seq<Call>, states: seq<State>, n: nat, b: State, held: seq<Tag?>, more: Tag?)
    requires HeldAre(held, calls, states) && n == |held| < |calls|
    requires more == if calls[n].Start_? && !NoStack(calls[n].k) then FirstOf(b.ts) else null
    ensures HeldAre(held + [more], calls, states + [b])
  {
    hide NoStack;
  }

  lemma MoreStates(calls: seq<Call>, states: seq<State>, n: nat, b: State, at: Tag?)
    requires |states| == n + 1 && n < |calls| && Runs(calls, states) && NeverBack(states)
    requires Fits(states[n]) && Allowed(calls[n], states[n]) && at == About(calls, states, n)
    requires Follows(calls[n], at, states[n], b) && forall i :: 0 <= i <= n ==> NoneBack(states[i], states[n], b)
    ensures Runs(calls, states + [b]) && NeverBack(states + [b])
  {
    hide Follows, Fits, Allowed, NoneBack;
    var next := states + [b];
    forall i | 0 <= i < |next| - 1
      ensures Step(calls, next, i)
    {
      if i < n {
        assert Step(calls, states, i) && About(calls, next, i) == About(calls, states, i);
      }
    }
    forall i, j | 0 <= i <= j < |next| - 1
      ensures NoneBack(next[i], next[j], next[j + 1])
    {
      assert j < n ==> NoneBack(states[i], states[j], states[j + 1]);
    }
  }

  /*** where flow content may follow *********************************************/

  // The first tag that is no phrase.
  ghost predicate FirstFlow(ts: seq<Tag>, n: nat) {
    n < |ts| && !InPhrase(ts[n].tag) && forall i :: 0 <= i < n ==> InPhrase(ts[i].tag)
  }

  lemma {:induction false} FlowAt(ts: seq<Tag>) returns (n: nat)
    requires SomeFlow(ts)
    ensures FirstFlow(ts, n) && ParagraphEnd(ts) == if ToPhrase(ts[n].tag) then n + 1 else n
  {
    n := 0;
    if InPhrase(ts[0].tag) {
      var i :| 0 <= i < |ts| && !InPhrase(ts[i].tag);
      assert ts[1..][i - 1] == ts[i];
      n := FlowAt(ts[1..]);
      n := n + 1;
      assert forall i :: 0 < i < n ==> ts[i] == ts[1..][i - 1];
    }
  }

  // html_close_paragraph() closes all phrases on top of the stack, and also
  // the element around them if that is a paragraph or heading; everything
  // below remains as it was.
  lemma ParagraphClosed(a: State, b: State)
    requires Fits(a) && Allowed(Paragraph_, a) && Follows(Paragraph_, null, a, b)
    ensures |b.ts| == |b.cl|
    ensures exists n: nat ::
              FirstFlow(a.ts, n)
              && Unclosed(Kinds(b.ts), b.cl) == OpenFrom(a.ts, a.cl, if ToPhrase(a.ts[n].tag) then n + 1 else n)
  {
    hide Unclosed, Kinds, ParagraphEnd, Follows, InPhrase, ToPhrase;
    var n := FlowAt(a.ts);
    LeftOpen(Paragraph_, null, a, b);
  }

  // Whatever is no phrase has been opened where flow content was allowed.
  ghost predicate Layered(a: State) {
    && |a.ts| == |a.cl|
    && forall i :: 0 <= i < |a.ts| && !a.cl[i] && !InPhrase(a.ts[i].tag) ==> FlowOn(OpenFrom(a.ts, a.cl, i + 1))
  }

  lemma LayeredNext(call: Call, at: Tag?, a: State, b: State)
    requires Fits(a) && Allowed(call, a) && Follows(call, at, a, b) && Layered(a)
    ensures Layered(b)
  {
    hide Unclosed, Kinds, InPhrase, Follows, Allowed, Fits, Pushed, OpenFrom, FlowOn;
    LengthsKept(call, at, a, b);
    forall i | 0 <= i < |b.ts| && !b.cl[i] && !InPhrase(b.ts[i].tag)
      ensures FlowOn(OpenFrom(b.ts, b.cl, i + 1))
    {
      if i < |Pushed(call, a)| {
        PushedOn(call, at, a, b, i);
      } else {
        KeptOn(call, at, a, b, i);
      }
    }
  }

  lemma LengthsKept(call: Call, at: Tag?, a: State, b: State)
    requires Fits(a) && Follows(call, at, a, b)
    ensures |b.ts| == |b.cl| >= |Pushed(call, a)|
  {
    hide Unclosed, Kinds, Written, Recounted, Reached, Cut, Pushed;
  }

  // A tag pushed by the call.
  lemma PushedOn(call: Call, at: Tag?, a: State, b: State, i: nat)
    requires Fits(a) && Allowed(call, a) && Follows(call, at, a, b)
    requires i < |Pushed(call, a)| <= |b.ts| == |b.cl| && !InPhrase(b.ts[i].tag)
    ensures FlowOn(OpenFrom(b.ts, b.cl, i + 1))
  {
    hide Unclosed, Kinds, InPhrase, Written, Recounted, Reached, Cut, Pushed, Allowed, OpenFrom, FlowOn, AllOpen;
    var n := |Pushed(call, a)|;
    assert b.ts[..n][i] == b.ts[i] && Kinds(b.ts[..n])[i] == Pushed(call, a)[i];
    PushedLayered(call, a, i);
    ReachedNone(call, a, at);
    assert Cut(a.rs, 0) == 0 && ClosedTo(a.cl, 0)[0..] == a.cl;
    assert b.cl[n..] == a.cl && a.ts[0..] == a.ts && a.cl[0..] == a.cl;
    SameFrom(b.ts, b.cl, n, a.ts, a.cl, 0);
  }

  // A tag below those that the call has closed.
  lemma KeptOn(call: Call, at: Tag?, a: State, b: State, i: nat)
    requires Fits(a) && Follows(call, at, a, b) && Layered(a)
    requires |Pushed(call, a)| <= i < |b.ts| == |b.cl| && !b.cl[i] && !InPhrase(b.ts[i].tag)
    ensures FlowOn(OpenFrom(b.ts, b.cl, i + 1))
  {
    hide Unclosed, Kinds, InPhrase, Written, Recounted, Reached, Cut, Pushed, OpenFrom, FlowOn, AllOpen;
    var n, p := |Pushed(call, a)|, Reached(call, a, at);
    var c := Cut(a.rs, p);
    var j := i - n + c;
    assert b.ts[i] == b.ts[n..][i - n] == a.ts[j];
    var cl := ClosedTo(a.cl, p);
    assert b.cl[i] == cl[c..][i - n] == cl[j];
    assert b.cl[i + 1..] == cl[c..][i - n + 1..] == a.cl[j + 1..];
    assert b.ts[i + 1..] == b.ts[n..][i - n + 1..] == a.ts[j + 1..];
    SameFrom(b.ts, b.cl, i + 1, a.ts, a.cl, j + 1);
  }

  lemma SameFrom(ts: seq<Tag>, cl: seq<bool>, i: nat, ts': seq<Tag>, cl': seq<bool>, j: nat)
    requires i <= |ts| == |cl| && j <= |ts'| == |cl'| && ts[i..] == ts'[j..] && cl[i..] == cl'[j..]
    ensures OpenFrom(ts, cl, i) == OpenFrom(ts', cl', j)
  {
  }

  lemma ReachedNone(call: Call, a: State, at: Tag?)
    requires Pushed(call, a) != []
    ensures Reached(call, a, at) == 0
  {
  }

  // Only the last one of the elements pushed can be no phrase.
  lemma PushedLayered(call: Call, a: State, i: nat)
    requires Fits(a) && Allowed(call, a) && i < |Pushed(call, a)| && !InPhrase(Pushed(call, a)[i])
    ensures i == |Pushed(call, a)| - 1 && FlowOn(OpenFrom(a.ts, a.cl, 0))
  {
    hide Unclosed, Kinds;
    assert a.ts[0..] == a.ts && a.cl[0..] == a.cl;
  }

  lemma {:induction false} AlwaysLayered(calls: seq<Call>, states: seq<State>, n: nat)
    requires Runs(calls, states) && n < |states|
    ensures Layered(states[n])
  {
    hide Follows, Allowed, Fits, Layered, About, Step;
    if n == 0 {
      NothingLayered();
    } else {
      AlwaysLayered(calls, states, n - 1);
      StepOf(calls, states, n - 1);
      StepLayered(calls, states, n - 1);
    }
  }

  lemma NothingLayered()
    ensures Layered(State([], [], [], []))
  {
  }

  lemma StepLayered(calls: seq<Call>, states: seq<State>, i: nat)
    requires Step(calls, states, i) && Layered(states[i])
    ensures Layered(states[i + 1])
  {
    hide Follows, Allowed, Fits, Layered, About;
    LayeredNext(calls[i], About(calls, states, i), states[i], states[i + 1]);
  }

  // In any run, flow content may follow after html_close_paragraph(), and no
  // element establishing phrasing context is left open on top, exactly unless
  // the first tag that is no phrase has been closed already and such an
  // element is open below it.
  lemma FlowFollows(calls: seq<Call>, states: seq<State>, i: nat, n: nat)
    requires Runs(calls, states) && i + 1 < |states| && i < |calls| && calls[i] == Paragraph_
    requires FirstFlow(states[i].ts, n)
    ensures |states[i].ts| == |states[i].cl| && |states[i + 1].ts| == |states[i + 1].cl|
    ensures FlowOn(Unclosed(Kinds(states[i + 1].ts), states[i + 1].cl)) <==>
              !states[i].cl[n] || FlowOn(OpenFrom(states[i].ts, states[i].cl, n + 1))
  {
    hide Unclosed, Kinds, InPhrase, Follows, Allowed, Layered, Runs;
    AlwaysLayered(calls, states, i);
    StepOf(calls, states, i);
    var a, b := states[i], states[i + 1];
    ParagraphClosed(a, b);
    var m: nat :| FirstFlow(a.ts, m)
      && Unclosed(Kinds(b.ts), b.cl) == OpenFrom(a.ts, a.cl, if ToPhrase(a.ts[m].tag) then m + 1 else m);
    assert m == n;
    LayeredAt(a, n);
    OpenAt(a.ts, a.cl, n);
  }

  lemma LayeredAt(a: State, n: nat)
    requires Layered(a) && n < |a.ts|
    ensures |a.ts| == |a.cl|
    ensures !a.cl[n] && !InPhrase(a.ts[n].tag) ==> FlowOn(OpenFrom(a.ts, a.cl, n + 1))
  {
    hide InPhrase, FlowOn, OpenFrom;
  }

  lemma OpenAt(ts: seq<Tag>, cl: seq<bool>, n: nat)
    requires n < |ts| == |cl|
    ensures OpenFrom(ts, cl, n) == (if cl[n] then [] else [ts[n].tag]) + OpenFrom(ts, cl, n + 1)
  {
    assert Kinds(ts[n..])[1..] == Kinds(ts[n + 1..]) && cl[n..][1..] == cl[n + 1..];
  }

  // No phrase that could need a paragraph is right inside of a section.
  ghost predicate Wrapped(ts: seq<Tag>) {
    forall i :: 0 <= i < |ts| - 1 && InPhrase(ts[i].tag) && ToPhrase(ts[i].tag) ==> ts[i + 1].tag != Section
  }

  lemma WrappedJoin(pushed: seq<Tag>, rest: seq<Tag>)
    requires Wrapped(pushed) && Wrapped(rest)
    requires pushed != [] && rest != [] ==>
               var k := pushed[|pushed| - 1].tag; InPhrase(k) && ToPhrase(k) ==> rest[0].tag != Section
    ensures Wrapped(pushed + rest)
  {
    hide InPhrase, ToPhrase;
    var n, ts := |pushed|, pushed + rest;
    forall i | 0 <= i < |ts| - 1 && InPhrase(ts[i].tag) && ToPhrase(ts[i].tag)
      ensures ts[i + 1].tag != Section
    {
      assert if i < n then ts[i] == pushed[i] else ts[i] == rest[i - n];
      assert if i + 1 < n then ts[i + 1] == pushed[i + 1] else ts[i + 1] == rest[i + 1 - n];
    }
  }

  lemma WrappedBelow(ts: seq<Tag>, c: nat)
    requires Wrapped(ts) && c <= |ts|
    ensures Wrapped(ts[c..])
  {
    hide InPhrase, ToPhrase;
  }

  lemma WrappedNext(call: Call, at: Tag?, a: State, b: State)
    requires Fits(a) && Follows(call, at, a, b) && Wrapped(a.ts)
    ensures Wrapped(b.ts)
  {
    hide Wrapped, Kinds, Written, Recounted, Reached, Cut, ClosedTo, Pushed, InPhrase, ToPhrase;
    var n, c := |Pushed(call, a)|, Cut(a.rs, Reached(call, a, at));
    var pushed, rest := b.ts[..n], a.ts[c..];
    assert b.ts == pushed + rest;
    assert forall i :: 0 <= i < n ==> pushed[i].tag == Kinds(pushed)[i] == Pushed(call, a)[i];
    PushedWrapped(call, a, at, pushed);
    WrappedBelow(a.ts, c);
    WrappedJoin(pushed, rest);
  }

  // What is pushed right onto a section is no such phrase.
  lemma PushedWrapped(call: Call, a: State, at: Tag?, pushed: seq<Tag>)
    requires |a.ts| == |a.rs| && |pushed| == |Pushed(call, a)|
    requires forall i :: 0 <= i < |pushed| ==> pushed[i].tag == Pushed(call, a)[i]
    ensures Wrapped(pushed)
    ensures
      pushed != [] ==>
        var k := pushed[|pushed| - 1].tag;
        Cut(a.rs, Reached(call, a, at)) == 0 && (a.ts != [] && InPhrase(k) && ToPhrase(k) ==> a.ts[0].tag != Section)
  {
  }

  // In any run, a phrase in a section is in a paragraph.
  lemma {:induction false} AlwaysWrapped(calls: seq<Call>, states: seq<State>, n: nat)
    requires Runs(calls, states) && n < |states|
    ensures Wrapped(states[n].ts)
  {
    hide Follows, Allowed, Fits, About, Wrapped;
    if n == 0 {
      NothingWrapped();
    } else {
      AlwaysWrapped(calls, states, n - 1);
      StepOf(calls, states, n - 1);
      WrappedNext(calls[n - 1], About(calls, states, n - 1), states[n - 1], states[n]);
    }
  }

  lemma NothingWrapped()
    ensures Wrapped([])
  {
  }

  // Open an element that has an end tag and needs no paragraph around it.
  method OpenOne(h: HtmlOut, k: Kind) returns (t: Tag)
    requires h.Valid() && h.OtagAllowed(k) && !NoStack(k) && Paragraph(k, h.tag) == []
    modifies h`tag, h`out, h`indent, h`noindent
    ensures h.Valid() && fresh(t) && h.Stack() == [t] + old(h.Stack()) && t.tag == k && !t.closed && t.refcnt == 0
    ensures h.tag == t && h.Open() == [k] + old(h.Open()) && h.out == old(h.out) + [Start(k)]
  {
    hide HtmlOut.Valid, HtmlOut.OtagAllowed, Unclosed, Flags, OpenIn, Paragraph;
    var t', pushed := h.Otag(k);
    t := t';
    assert Kinds(pushed) == [k] && pushed == [t] && pushed[0].tag == Kinds(pushed)[0] && pushed[0] in pushed;
    assert Starts([k]) == [Start(k)];
  }

  // In bold text, a mark contains a division, and both are referred to.
  method MarkInBold() returns (h: HtmlOut, d: Tag, b: Tag, m: Tag, v: Tag)
    ensures h.Valid() && fresh(h) && h.Stack() == [v, m, b, d] && fresh(v) && fresh(m) && fresh(b) && fresh(d)
    ensures !v.closed && !m.closed && !b.closed && !d.closed
    ensures v.refcnt == m.refcnt == 1 && b.refcnt == d.refcnt == 0
    ensures d.tag == v.tag == Div && b.tag == B && m.tag == Mark && v != m
    ensures h.Open() == [Div, Mark, B, Div] && h.out == [Start(Div), Start(B), Start(Mark), Start(Div)]
  {
    hide HtmlOut.Valid, HtmlOut.Open, HtmlOut.Stack, Unclosed, Flags, Kinds, Counts, Starts, OpenIn;
    h := new HtmlOut();
    NoneOpenYet(h);
    d := OpenOne(h, Div);
    b := OpenOne(h, B);
    m := OpenOne(h, Mark);
    v := OpenOne(h, Div);
    h.Refer(m);
    h.Refer(v);
  }

  // For example: the mark is closed with the division in it, and then
  // html_close_paragraph() stops at the tag of the division and ends
  // nothing: the bold text stays open.
  method PhraseLeftExample() returns (out: seq<Event>)
    ensures out == [Start(Div), Start(B), Start(Mark), Start(Div), End(Div), End(Mark)]
  {
    hide HtmlOut.Valid, HtmlOut.Open, HtmlOut.Stack, HtmlOut.Walked, Unclosed, Flags, Kinds, Counts, ParagraphEnd,
        Behind, Ended, OpenFrom, Cut, Ends, OpenIn, SomeFlow;
    var h, d, b, m, v := MarkInBold();
    ghost var ts, cl, rs := h.Stack(), Flags(h.Stack()), Counts(h.Stack());
    assert cl == [false, false, false, false] && rs == [1, 1, 0, 0];
    MarkClosed(v, m, b, d);
    ghost var ks, p, ks';
    ks, p := h.CloseUpTo(m);
    WalkedNone(h, ts, cl, rs);
    EndedTwo(h.out, ks);
    ghost var written := h.out;
    assert h.Stack() == ts && Flags(h.Stack()) == [true, true, false, false] && ts == [v, m, b, d];
    assert h.Open() == [B, Div];
    ks', p := h.CloseParagraph();
    out := h.out;
    WrittenNone(written, out, ks');
  }

  lemma MarkClosed(v: Tag, m: Tag, b: Tag, d: Tag)
    requires d.tag == v.tag == Div && b.tag == B && m.tag == Mark && v != m
    ensures Behind([v, m, b, d], m) == 2 && Cut([1, 1, 0, 0], 2) == 0 && ParagraphEnd([v, m, b, d]) == 0
    ensures SomeFlow([v, m, b, d]) && ClosedTo([false, false, false, false], 2) == [true, true, false, false]
    ensures OpenFrom([v, m, b, d], [false, false, false, false], 2) == [B, Div]
    ensures OpenFrom([v, m, b, d], [true, true, false, false], 0) == [B, Div]
  {
    hide Unclosed, Behind, Cut;
    var ts := [v, m, b, d];
    TwoOpen(ts, [false, false, false, false], 2);
    assert Cut([1, 1, 0, 0], 2) == 0 by {
      CutAbove([1, 1, 0, 0], 2, 0);
    }
    var cl := [true, true, false, false];
    TwoOpen(ts, cl, 2);
    UnclosedBelow(Kinds(ts), cl, 2);
    assert Kinds(ts)[2..] == Kinds(ts[2..]) && ts[0..] == ts && cl[0..] == cl;
    assert ts[Behind(ts, m) - 1] == m;
    assert !InPhrase(ts[0].tag);
  }

  lemma TwoOpen(ts: seq<Tag>, cl: seq<bool>, p: nat)
    requires |ts| == |cl| == p + 2 && ts[p].tag == B && ts[p + 1].tag == Div && !cl[p] && !cl[p + 1]
    ensures OpenFrom(ts, cl, p) == [B, Div]
  {
    OpenAt(ts, cl, p);
    OpenAt(ts, cl, p + 1);
    NothingFrom(ts, cl);
  }

  lemma WalkedNone(h: HtmlOut, ts: seq<Tag>, cl: seq<bool>, rs: seq<nat>)
    requires h.Walked(ts, cl, rs, 2) && Cut(rs, 2) == 0
    ensures h.Stack() == ts && Flags(ts) == ClosedTo(cl, 2)
  {
    assert ts[0..] == ts;
  }

  lemma EndedTwo(out: seq<Event>, ks: seq<Kind>)
    requires Ended([Div, Mark, B, Div], [Start(Div), Start(B), Start(Mark), Start(Div)], ks, [B, Div], out)
    ensures out == [Start(Div), Start(B), Start(Mark), Start(Div), End(Div), End(Mark)]
  {
    assert |ks| == 2 && ks[0] == (ks + [B, Div])[0] && ks[1] == (ks + [B, Div])[1];
    assert ks == [Div, Mark];
    assert Ends(ks) == [End(Div), End(Mark)];
  }

  lemma WrittenNone(out: seq<Event>, out': seq<Event>, ks: seq<Kind>)
    requires Ended([B, Div], out, ks, [B, Div], out')
    ensures out' == out
  {
    assert |ks| == 0;
    assert Ends([]) == [];
  }

  lemma NoneOpenYet(h: HtmlOut)
    requires h.tag == null
    ensures h.Stack() == [] && h.Open() == []
  {
  }

  /*** an example ****************************************************************/

  lemma StartStep(k: Kind, a: State, b: State)
    requires Fits(a) && Follows(Start_(k), null, a, b) && (k == Div || k == P)
    ensures b.ts != [] && b == State([b.ts[0]] + a.ts, [false] + a.cl, [0] + a.rs, a.out + [Start(k)])
    ensures b.ts[0].tag == k && b.ts[0] !in a.ts
  {
    hide Recounted;
    var ks := Pushed(Start_(k), a);
    assert ks == [k];
    StartsOf(ks);
    assert ClosedTo(a.cl, 0)[0..] == a.cl && a.ts[0..] == a.ts;
    SameCounts(Start_(k), a, null);
    var x := b.ts[0];
    assert b.ts == b.ts[..1] + b.ts[1..] && b.ts[..1] == [x] && Kinds([x])[0] == k && x in b.ts[..1];
    assert AllOpen(1) == [false] && NoReferences(1) == [0];
  }

  lemma SameCounts(call: Call, a: State, at: Tag?)
    requires Fits(a) && ((!call.Hold? && !call.Drop?) || at !in a.ts)
    ensures Recounted(call, a, at) == a.rs && Recounted(call, a, at)[0..] == a.rs
  {
  }

  lemma CountStep(call: Call, at: Tag?, a: State, b: State)
    requires Fits(a) && Follows(call, at, a, b) && (call.Hold? || call.Drop?)
    ensures b == State(a.ts, a.cl, Recounted(call, a, at), a.out)
  {
    hide Recounted;
    assert ClosedTo(a.cl, 0)[0..] == a.cl && a.ts[0..] == a.ts && b.ts[0..] == b.ts;
    NothingWritten(call, a, at);
    assert AllOpen(0) + a.cl == a.cl;
    assert NoReferences(0) + Recounted(call, a, at)[0..] == Recounted(call, a, at);
  }

  lemma CloseStep(m: nat, at: Tag?, a: State, b: State, p: nat)
    requires Fits(a) && Follows(Close(m), at, a, b) && p == Behind(a.ts, at)
    ensures
      var c := Cut(a.rs, p);
      b == State(a.ts[c..], ClosedTo(a.cl, p)[c..], a.rs[c..], a.out + Ends(Unclosed(Kinds(a.ts[..p]), a.cl[..p])))
  {
    hide Recounted, Unclosed, Kinds, Ends, Behind, Cut;
    SameCounts(Close(m), a, at);
    var c := Cut(a.rs, p);
    assert b.ts[0..] == b.ts && AllOpen(0) + ClosedTo(a.cl, p)[c..] == ClosedTo(a.cl, p)[c..];
    assert NoReferences(0) + a.rs[c..] == a.rs[c..];
  }

  // Closing a tag with a tag inside of it that is closed but referred to.
  lemma DroppedState(x: Tag, y: Tag, out: seq<Event>, m: nat, a: State, b: State)
    requires x.tag == y.tag == Div && x != y && a == State([y, x], [true, false], [1, 0], out)
    requires Follows(Close(m), x, a, b)
    ensures b == State([], [], [], out + [End(Div)])
  {
    assert Behind([x], x) == 1 && [y, x][1..] == [x] && Behind([y, x], x) == 2;
    CloseStep(m, x, a, b, 2);
    assert Cut([1, 0], 2) == 2;
    assert [y, x][..2] == [y, x] && [true, false][..2] == [true, false];
    var ks := Kinds([y, x]);
    assert ks == [Div, Div] && ks[1..] == [Div] && [true, false][1..] == [false];
    assert Unclosed([Div], [false]) == [Div] && Unclosed(ks, [true, false]) == [Div];
    assert Ends([Div]) == [End(Div)];
  }

  // Closing the only tag on the stack, or one that is not there.
  lemma OnlyClosed(z: Tag, at: Tag, out: seq<Event>, m: nat, a: State, b: State)
    requires z.tag == Div && a == State([z], [false], [0], out) && Follows(Close(m), at, a, b)
    ensures b == State([], [], [], out + [End(Div)])
  {
    assert Behind([z], at) == 1;
    CloseStep(m, at, a, b, 1);
    assert Cut([0], 1) == 1 && [z][..1] == [z] && [false][..1] == [false];
    assert Kinds([z]) == [Div] && Unclosed([Div], [false]) == [Div];
    assert Ends([Div]) == [End(Div)];
  }

  // Closing a tag that is referred to.
  lemma HeldClosed(x: Tag, y: Tag, out: seq<Event>, m: nat, a: State, b: State)
    requires x.tag == y.tag == Div && x != y && a == State([y, x], [false, false], [1, 0], out)
    requires Follows(Close(m), y, a, b)
    ensures b == State([y, x], [true, false], [1, 0], out + [End(Div)])
  {
    assert Behind([y, x], y) == 1;
    CloseStep(m, y, a, b, 1);
    assert Cut([1, 0], 1) == 0;
    assert [y, x][..1] == [y] && [false, false][..1] == [false];
    assert Kinds([y]) == [Div] && Unclosed([Div], [false]) == [Div];
    assert Ends([Div]) == [End(Div)];
    assert ClosedTo([false, false], 1) == [true, false];
  }

  const DROPPED: seq<Call> := [Start_(Div), Start_(Div), Hold(1), Close(1), Close(0), Start_(Div), Drop(1), Close(1),
                               Start_(P)]

  lemma DivAllowed(a: State)
    requires Fits(a) && (forall i :: 0 <= i < |a.ts| ==> a.ts[i].tag == Div)
    ensures Allowed(Start_(Div), a) && (a.ts == [] ==> Allowed(Start_(P), a))
  {
    DivsOpen(Kinds(a.ts), a.cl);
  }

  lemma {:induction false} DivsOpen(ks: seq<Kind>, cl: seq<bool>)
    requires |ks| == |cl| && forall i :: 0 <= i < |ks| ==> ks[i] == Div
    ensures Unclosed(ks, cl) != [] ==> Unclosed(ks, cl)[0] == Div
  {
    if ks != [] {
      DivsOpen(ks[1..], cl[1..]);
    }
  }

  // What is known about the next step of a run.
  lemma NextStep(calls: seq<Call>, states: seq<State>, n: nat, i: nat)
    requires Ran(calls, states, n) && i < |calls| && i <= n && (n < |calls| ==> !Allowed(calls[n], states[n]))
    ensures Fits(states[i]) && (Allowed(calls[i], states[i]) ==>
              i < n && Fits(states[i + 1]) && Follows(calls[i], About(calls, states, i), states[i], states[i + 1]))
  {
    hide Fits, Follows, Allowed, About, NeverBack, Content, AskedAll;
    assert Nests(states[i]);
    if i < n {
      assert Step(calls, states, i) && Nests(states[i + 1]);
    }
  }

  lemma DroppedFirst(states: seq<State>, n: nat) returns (x: Tag, y: Tag)
    requires Ran(DROPPED, states, n) && (n < 9 ==> !Allowed(DROPPED[n], states[n]))
    ensures n >= 3 && x.tag == y.tag == Div && x != y
    ensures Returned(DROPPED, states, 0) == x && Returned(DROPPED, states, 1) == y
    ensures states[3] == State([y, x], [false, false], [1, 0], [Start(Div), Start(Div)])
  {
    hide Fits, Follows, Allowed, Ran, Recounted;
    FirstState(DROPPED, states, n);
    NextStep(DROPPED, states, n, 0);
    DivAllowed(states[0]);
    StartStep(Div, states[0], states[1]);
    x := states[1].ts[0];
    assert states[1] == State([x], [false], [0], [Start(Div)]);
    NextStep(DROPPED, states, n, 1);
    DivAllowed(states[1]);
    StartStep(Div, states[1], states[2]);
    y := states[2].ts[0];
    assert states[2] == State([y, x], [false, false], [0, 0], [Start(Div), Start(Div)]);
    NextStep(DROPPED, states, n, 2);
    CloseAllowed(Hold(1), states[2]);
    CountStep(Hold(1), y, states[2], states[3]);
    assert Recounted(Hold(1), states[2], y) == [1, 0] by {
      HoldsFirst(x, y, states[2]);
    }
  }

  lemma FirstState(calls: seq<Call>, states: seq<State>, n: nat)
    requires Ran(calls, states, n)
    ensures |states| == n + 1 && n <= |calls| && states[0] == State([], [], [], [])
  {
  }

  lemma HoldsFirst(x: Tag, y: Tag, a: State)
    requires x != y && a.ts == [y, x] && a.rs == [0, 0]
    ensures Recounted(Hold(1), a, y) == [1, 0]
  {
  }

  lemma CloseAllowed(call: Call, a: State)
    requires Fits(a) && (call.Close? || call.Hold? || call.Drop?)
    ensures Allowed(call, a)
  {
  }

  lemma DroppedThen(states: seq<State>, n: nat) returns (y: Tag, z: Tag)
    requires Ran(DROPPED, states, n) && (n < 9 ==> !Allowed(DROPPED[n], states[n]))
    ensures n >= 6 && z.tag == Div && y != z && Returned(DROPPED, states, 1) == y
    ensures states[6] == State([z], [false], [0], [Start(Div), Start(Div), End(Div), End(Div), Start(Div)])
  {
    hide Fits, Follows, Allowed, Ran, Recounted, Unclosed, Kinds, NeverBack;
    FirstState(DROPPED, states, n);
    var x;
    x, y := DroppedFirst(states, n);
    var out := [Start(Div), Start(Div)];
    NextStep(DROPPED, states, n, 3);
    CloseAllowed(Close(1), states[3]);
    HeldClosed(x, y, out, 1, states[3], states[4]);
    NextStep(DROPPED, states, n, 4);
    CloseAllowed(Close(0), states[4]);
    DroppedState(x, y, out + [End(Div)], 0, states[4], states[5]);
    NextStep(DROPPED, states, n, 5);
    DivAllowed(states[5]);
    StartStep(Div, states[5], states[6]);
    z := states[6].ts[0];
    assert [z] + [] == [z] && [false] + [] == [false] && [0] + [] == [0];
    NeverAgain(DROPPED, states, n, y, z);
  }

  lemma NeverAgain(calls: seq<Call>, states: seq<State>, n: nat, y: Tag, z: Tag)
    requires Ran(calls, states, n) && n >= 6 && y in states[3].ts && z in states[6].ts && states[5].ts == []
    ensures y != z
  {
    assert NoneBack(states[3], states[5], states[6]);
  }

  lemma DroppedRun(states: seq<State>, n: nat)
    requires Ran(DROPPED, states, n) && (n < 9 ==> !Allowed(DROPPED[n], states[n]))
    ensures n == 9 && OpenOf(states[7]) == [Div] && OpenOf(states[8]) == []
    ensures states[9].out == [Start(Div), Start(Div), End(Div), End(Div), Start(Div), End(Div), Start(P)]
    ensures OpenOf(states[9]) == [P]
  {
    hide Fits, Follows, Allowed, Ran, Recounted, Unclosed, Kinds, NeverBack;
    FirstState(DROPPED, states, n);
    var y, z := DroppedThen(states, n);
    var out := states[6].out;
    NextStep(DROPPED, states, n, 6);
    CloseAllowed(Drop(1), states[6]);
    CountStep(Drop(1), y, states[6], states[7]);
    DropsNothing(z, y, states[6]);
    NextStep(DROPPED, states, n, 7);
    CloseAllowed(Close(1), states[7]);
    OnlyClosed(z, y, out, 1, states[7], states[8]);
    NextStep(DROPPED, states, n, 8);
    DivAllowed(states[8]);
    StartStep(P, states[8], states[9]);
    var w := states[9].ts[0];
    assert states[9] == State([w], [false], [0], out + [End(Div)] + [Start(P)]);
    OneOpen(z, Div);
    OneOpen(w, P);
    NoneOpen();
  }

  lemma DropsNothing(z: Tag, y: Tag, a: State)
    requires a.ts == [z] && a.rs == [0]
    ensures Recounted(Drop(1), a, y) == [0]
  {
  }

  lemma OneOpen(t: Tag, k: Kind)
    requires t.tag == k
    ensures Unclosed(Kinds([t]), [false]) == [k]
  {
    assert Kinds([t]) == [k] && Unclosed([k], [false]) == [k];
  }

  lemma NoneOpen()
    ensures Unclosed(Kinds([]), []) == []
  {
  }

  // For example: with two divisions open, one in the other, the inner one is
  // referred to when it is closed, and the outer one is closed after it.  When
  // the inner one is closed again later on, everything is closed: the third
  // division does not contain the paragraph that follows.
  method DroppedExample() returns (out: seq<Event>)
    ensures out == [Start(Div), Start(Div), End(Div), End(Div), Start(Div), End(Div), Start(P), End(P)]
  {
    hide Fits, Allowed, Ran, OpenOf, HtmlOut.Valid, Content, AskedAll, Replay;
    var h, n;
    ghost var states;
    h, n, states := Run(DROPPED);
    DroppedRun(states, n);
    out := h.out;
    assert Ends([P]) == [End(P)];
  }
}
