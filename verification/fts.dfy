// Traversing a directory tree one entry at a time: userland/mandoc/compat_fts.c.
module Fts {
  import opened Bytes

  /*** the file system ********************************************************/

  // A file with its name, and what lstat(2) and opendir(3) say about it.
  datatype File = File(name: Str, kind: Kind)

  datatype Kind = Dir(dev: int, ino: int, readable: bool, kids: Files) | Link | Regular | Other | Gone

  // Directory entries in the order of readdir(3).
  datatype Files = Nil | Cons(head: File, tail: Files)

  const SLASH: Byte := 47
  const DOT: Byte := 46

  predicate IsDot(name: Str) {
    name == [DOT] || name == [DOT, DOT]
  }

  // No entry but "." and "..".
  predicate NoEntries(fs: Files) {
    fs.Nil? || (IsDot(fs.head.name) && NoEntries(fs.tail))
  }

  // The first entry with those behind it.
  function FirstEntry(fs: Files): (r: Files)
    requires !NoEntries(fs)
    ensures r.Cons? && !IsDot(r.head.name)
  {
    if IsDot(fs.head.name) then FirstEntry(fs.tail) else fs
  }

  // The names in directories are not empty and do not contain slashes.
  predicate NamesOk(fs: Files) {
    match fs
    case Nil => true
    case Cons(f, t) => f.name != [] && SLASH !in f.name && TreeOk(f) && NamesOk(t)
  }

  predicate TreeOk(f: File) {
    f.kind.Dir? ==> NamesOk(f.kind.kids)
  }

  // The arguments of fts_open(): the path of a directory is not empty.
  predicate RootsOk(fs: Files) {
    match fs
    case Nil => true
    case Cons(f, t) => (f.kind.Dir? ==> f.name != []) && TreeOk(f) && RootsOk(t)
  }

  /*** the traversal ************************************************************/

  datatype Info = D | DC | Default | DNR | DP | F | Init | NS | SL

  // What a call of fts_read() shows: the path, the level, and the kind.
  datatype Visit = Visit(path: Str, level: int, info: Info)

  // The option not to cross mount points, the directories to be skipped, and
  // the path shown when an empty directory is left.
  datatype Env = Env(xdev: bool, skip: Str -> bool, left: Str -> Str)

  type Id = (int, int)

  function EndsInSlash(path: Str): bool {
    path != [] && path[|path| - 1] == SLASH
  }

  // The path without a slash at its end.
  function Cut(path: Str): Str {
    if EndsInSlash(path) then path[..|path| - 1] else path
  }

  function Join(path: Str, name: Str): Str {
    Cut(path) + [SLASH] + name
  }

  const MAXLEVEL: int := 0x7fff_ffff

  function Deeper(level: int): int {
    if level < MAXLEVEL then level + 1 else level
  }

  // fts_stat(), when these are the directories above.
  function InfoOf(f: File, ids: seq<Id>): Info {
    match f.kind
    case Dir(dev, ino, _, _) => if (dev, ino) in ids then DC else D
    case Link => SL
    case Regular => F
    case Other => Default
    case Gone => NS
  }

  function DevOf(f: File): int {
    if f.kind.Dir? then f.kind.dev else 0
  }

  // An entry is visited once, a directory once before and once after
  // everything inside of it.
  function Walk(f: File, path: Str, level: int, ids: seq<Id>, dev: int, env: Env): seq<Visit>
    decreases f, 2
  {
    [Visit(path, level, InfoOf(f, ids))] + if InfoOf(f, ids).D? then Inside(f, path, level, ids, dev, env) else []
  }

  // The visits to a directory after the first one.
  function Inside(f: File, path: Str, level: int, ids: seq<Id>, dev: int, env: Env): seq<Visit>
    requires f.kind.Dir?
    decreases f, 1
  {
    if env.skip(path) || (env.xdev && f.kind.dev != dev) then [Visit(path, level, DP)]
    else if !f.kind.readable then [Visit(path, level, DNR)]
    else if NoEntries(f.kind.kids) then [Visit(env.left(path), level, DP)]
    else
      var inside := ids + [(f.kind.dev, f.kind.ino)];
      WalkAll(f.kind.kids, path, Deeper(level), inside, dev, env) + [Visit(path, level, DP)]
  }

  function WalkAll(fs: Files, path: Str, level: int, ids: seq<Id>, dev: int, env: Env): seq<Visit>
    decreases fs, 0
  {
    match fs
    case Nil => []
    case Cons(f, t) =>
      (if IsDot(f.name) then [] else Walk(f, Join(path, f.name), level, ids, dev, env))
          + WalkAll(t, path, level, ids, dev, env)
  }

  function WalkRoots(fs: Files, env: Env): seq<Visit> {
    match fs
    case Nil => []
    case Cons(f, t) => Walk(f, f.name, 0, [], DevOf(f), env) + WalkRoots(t, env)
  }

  /*** entries ******************************************************************/

  class Ent {
    const file: File
    const parent: Ent?
    const link: Ent?
    const level: int
    const pathlen: nat
    var info: Info
    var skip: bool
    // The entries and the files behind this one, the directories above it,
    // its path, and the device of its root.
    ghost const rest: seq<Ent>
    ghost const more: Files
    ghost const anc: seq<Ent>
    ghost const full: Str
    ghost const dev: int

    constructor (file: File, parent: Ent?, link: Ent?, level: int, pathlen: nat, info: Info,
                 ghost more: Files, ghost full: Str, ghost dev: int)
      ensures this.file == file && this.parent == parent && this.link == link
      ensures this.level == level && this.pathlen == pathlen && this.info == info && !skip
      ensures this.more == more && this.full == full && this.dev == dev
      ensures rest == Following(link) && anc == Above(parent)
    {
      this.file, this.parent, this.link, this.level, this.pathlen, this.info, skip := file, parent, link, level,
          pathlen, info, false;
      this.more, this.full, this.dev, rest, anc := more, full, dev, Following(link), Above(parent);
    }
  }

  ghost function Following(link: Ent?): seq<Ent> {
    if link == null then [] else [link] + link.rest
  }

  ghost function Above(parent: Ent?): seq<Ent> {
    if parent == null then [] else parent.anc + [parent]
  }

  // The identities of the directories above.
  ghost function Ids(anc: seq<Ent>): seq<Id> {
    if anc == [] then []
    else Ids(anc[..|anc| - 1]) + [if anc[|anc| - 1].file.kind.Dir? then
        (anc[|anc| - 1].file.kind.dev, anc[|anc| - 1].file.kind.ino) else (0, 0)]
  }

  // How the constant fields of an entry fit together.
  ghost predicate Formed(e: Ent)
    decreases |e.anc|, |e.rest|
  {
    && e.pathlen == |e.full| && e.rest == Following(e.link) && e.anc == Above(e.parent) && TreeOk(e.file)
    && (if e.parent == null then
          && e.full == e.file.name && e.level == 0 && RootsOk(e.more) && (e.file.kind.Dir? ==> e.full != [])
             && e.dev == DevOf(e.file)
          && (e.link == null <==> e.more.Nil?)
          && (e.link != null ==>
                e.link.parent == null && e.more == Cons(e.link.file, e.link.more) && e.link.anc == e.anc
                    && Formed(e.link))
        else
          && e.full == Join(e.parent.full, e.file.name) && !EndsInSlash(e.full) && e.level == Deeper(e.parent.level)
             && e.level > 0
          && NamesOk(e.more) && e.parent.file.kind.Dir? && e.dev == e.parent.dev && Formed(e.parent)
          && (e.link == null <==> NoEntries(e.more))
          && (e.link != null ==>
                && e.link.parent == e.parent && FirstEntry(e.more) == Cons(e.link.file, e.link.more)
                && e.link.anc == e.anc && Formed(e.link)))
  }

  // The entries not visited yet.
  ghost function Pending(e: Ent): seq<Ent>
    requires Formed(e)
    decreases |e.anc|
  {
    e.rest + if e.parent == null then [] else Pending(e.parent)
  }

  ghost predicate Unvisited(es: seq<Ent>)
    reads es
  {
    forall q :: q in es ==> q.info == InfoOf(q.file, Ids(q.anc)) && !q.skip
  }

  lemma {:induction false} RestSameDepth(e: Ent, q: Ent)
    requires Formed(e) && q in e.rest
    ensures |q.anc| == |e.anc| && |q.rest| < |e.rest|
    decreases |e.rest|
  {
    if q != e.link {
      RestSameDepth(e.link, q);
    }
  }

  lemma {:induction false} PendingNotDeeper(e: Ent, q: Ent)
    requires Formed(e) && q in Pending(e)
    ensures |q.anc| <= |e.anc|
    decreases |e.anc|
  {
    if q in e.rest {
      RestSameDepth(e, q);
    } else {
      PendingNotDeeper(e.parent, q);
    }
  }

  // An entry is not behind itself.
  lemma NotPending(e: Ent)
    requires Formed(e)
    ensures e !in Pending(e)
  {
    if e in Pending(e) {
      if e in e.rest {
        RestSameDepth(e, e);
      } else {
        PendingNotDeeper(e.parent, e);
      }
    }
  }

  // The visits after everything in e has been visited.
  ghost function After(e: Ent, env: Env): seq<Visit>
    requires Formed(e)
    decreases |e.anc|
  {
    if e.parent == null then WalkRoots(e.more, env)
    else
      WalkAll(e.more, e.parent.full, e.level, Ids(e.anc), e.dev, env)
      + [Visit(e.parent.full, e.parent.level, DP)] + After(e.parent, env)
  }

  // The visits that remain when e is the current entry.
  ghost function Remaining(e: Ent, info: Info, env: Env): seq<Visit>
    requires Formed(e) && (info.D? ==> e.file.kind.Dir?)
  {
    (if info.D? then Inside(e.file, e.full, e.level, Ids(e.anc), e.dev, env) else []) + After(e, env)
  }

  // What is known about an entry on its own.
  lemma OwnFacts(e: Ent)
    requires Formed(e)
    ensures e.parent == null ==> e.full == e.file.name && e.level == 0 && e.anc == [] && e.dev == DevOf(e.file)
    ensures e.parent != null ==>
              e.full == Join(e.parent.full, e.file.name) && e.dev == e.parent.dev && e.level == Deeper(e.parent.level)
    ensures e.rest == Following(e.link)
  {
    hide TreeOk, NamesOk, RootsOk, FirstEntry, NoEntries, Join, EndsInSlash, Deeper, DevOf, Cut;
  }

  lemma LinkFacts(e: Ent)
    requires Formed(e) && e.link != null
    ensures Formed(e.link) && e.link.parent == e.parent && e.link.anc == e.anc
    ensures if e.parent == null then e.more == Cons(e.link.file, e.link.more)
            else !NoEntries(e.more) && FirstEntry(e.more) == Cons(e.link.file, e.link.more)
  {
    hide TreeOk, NamesOk, RootsOk, FirstEntry, NoEntries, Join, EndsInSlash, Deeper, DevOf, Cut;
  }

  lemma PendingIs(e: Ent)
    requires Formed(e)
    ensures e.parent == null ==> Pending(e) == e.rest
    ensures e.parent != null ==> Formed(e.parent) && Pending(e) == e.rest + Pending(e.parent)
  {
    hide TreeOk, NamesOk, RootsOk, FirstEntry, NoEntries, Join, EndsInSlash, Deeper, DevOf, Cut;
  }

  // Moving on to the entry behind e.
  lemma NextFormed(e: Ent)
    requires Formed(e) && e.link != null
    ensures Formed(e.link) && e.link.parent == e.parent && e.link.anc == e.anc && e.link.level == e.level
    ensures Pending(e) == [e.link] + Pending(e.link)
    ensures if e.parent == null then e.more == Cons(e.link.file, e.link.more)
            else !NoEntries(e.more) && FirstEntry(e.more) == Cons(e.link.file, e.link.more) && e.dev == e.link.dev
                 && e.link.full == Join(e.parent.full, e.link.file.name)
    ensures e.parent == null ==> e.link.full == e.link.file.name && e.level == 0 && e.anc == []
    ensures e.parent == null ==> e.link.dev == DevOf(e.link.file)
  {
    hide Formed, FirstEntry, NoEntries, Join, Deeper, DevOf, Pending;
    LinkFacts(e);
    OwnFacts(e);
    OwnFacts(e.link);
    PendingIs(e);
    PendingIs(e.link);
    if e.parent != null {
      assert [e.link] + (e.link.rest + Pending(e.parent)) == [e.link] + e.link.rest + Pending(e.parent);
    }
  }

  lemma InfoKind(f: File, ids: seq<Id>)
    ensures InfoOf(f, ids).D? ==> f.kind.Dir?
    ensures !InfoOf(f, ids).Init?
  {
  }

  lemma RemainingPlain(e: Ent, info: Info, env: Env)
    requires Formed(e) && !info.D?
    ensures Remaining(e, info, env) == After(e, env)
  {
    hide Formed;
  }

  lemma WalkStarts(f: File, path: Str, level: int, ids: seq<Id>, dev: int, env: Env)
    ensures
      var info := InfoOf(f, ids);
      && (info.D? ==> f.kind.Dir?)
      && Walk(f, path, level, ids, dev, env)
         == [Visit(path, level, info)] + if info.D? then Inside(f, path, level, ids, dev, env) else []
  {
    hide Inside;
  }

  lemma NextSibling(e: Ent, env: Env)
    requires Formed(e) && e.link != null
    ensures Formed(e.link) && Pending(e) == [e.link] + Pending(e.link)
    ensures InfoOf(e.link.file, Ids(e.link.anc)).D? ==> e.link.file.kind.Dir?
    ensures
      var info := InfoOf(e.link.file, Ids(e.link.anc));
      After(e, env) == [Visit(e.link.full, e.link.level, info)] + Remaining(e.link, info, env)
  {
    hide Formed, Ids, Inside, Walk, WalkAll, FirstEntry, NoEntries, InfoOf, Join;
    var n := e.link;
    NextFormed(e);
    InfoKind(n.file, Ids(n.anc));
    if e.parent == null {
      NoIds(n);
      NextRoot(e, env);
    } else {
      WalkFirst(e.more, e.parent.full, e.level, Ids(e.anc), e.dev, env);
      WalkStarts(n.file, n.full, n.level, Ids(n.anc), n.dev, env);
    }
  }

  lemma NextRoot(e: Ent, env: Env)
    requires Formed(e) && e.link != null && e.parent == null && e.link.parent == null && Formed(e.link)
    requires e.more == Cons(e.link.file, e.link.more) && e.link.full == e.link.file.name && e.link.level == 0
             && Ids(e.link.anc) == []
    requires e.link.dev == DevOf(e.link.file)
    ensures
      var info := InfoOf(e.link.file, []);
      (info.D? ==> e.link.file.kind.Dir?) && After(e, env) == [Visit(e.link.full, e.link.level, info)]
          + Remaining(e.link, info, env)
  {
    hide Formed, Ids, Inside, Walk, InfoOf;
    WalkStarts(e.link.file, e.link.full, 0, [], DevOf(e.link.file), env);
  }

  lemma NoIds(e: Ent)
    requires e.anc == []
    ensures Ids(e.anc) == []
  {
  }

  lemma {:induction false} WalkFirst(fs: Files, path: Str, level: int, ids: seq<Id>, dev: int, env: Env)
    requires !NoEntries(fs)
    ensures
      var r := FirstEntry(fs);
      WalkAll(fs, path, level, ids, dev, env)
      == Walk(r.head, Join(path, r.head.name), level, ids, dev, env) + WalkAll(r.tail, path, level, ids, dev, env)
    decreases fs
  {
    if IsDot(fs.head.name) {
      WalkFirst(fs.tail, path, level, ids, dev, env);
    }
  }

  lemma {:induction false} WalkNone(fs: Files, path: Str, level: int, ids: seq<Id>, dev: int, env: Env)
    requires NoEntries(fs)
    ensures WalkAll(fs, path, level, ids, dev, env) == []
    decreases fs
  {
    if fs.Cons? {
      WalkNone(fs.tail, path, level, ids, dev, env);
    }
  }

  // Moving up from e, the last entry in its directory.
  lemma MoveUp(e: Ent, env: Env)
    requires Formed(e) && e.link == null
    ensures e.parent == null ==> After(e, env) == []
    ensures e.parent != null ==>
              && Formed(e.parent) && Pending(e) == Pending(e.parent)
              && After(e, env) == [Visit(e.parent.full, e.parent.level, DP)] + After(e.parent, env)
  {
    hide Pending, Ids, WalkAll, Join, Deeper, DevOf, TreeOk, RootsOk, NamesOk, FirstEntry;
    PendingIs(e);
    if e.parent != null {
      WalkNone(e.more, e.parent.full, e.level, Ids(e.anc), e.dev, env);
    }
  }

  /*** the stream ****************************************************************/

  lemma IdsSnoc(anc: seq<Ent>, t: Ent)
    requires t.file.kind.Dir?
    ensures Ids(anc + [t]) == Ids(anc) + [(t.file.kind.dev, t.file.kind.ino)]
  {
    assert (anc + [t])[..|anc|] == anc;
  }

  // fts_stat(): a directory that is also one of those above closes a cycle.
  method Stat(f: File, parent: Ent?) returns (info: Info)
    requires parent != null ==> Formed(parent) && parent.file.kind.Dir?
    ensures info == InfoOf(f, Ids(Above(parent)))
  {
    hide Formed, Ids, TreeOk;
    match f.kind
    case Dir(dev, ino, _, _) =>
      var t := parent;
      NoneAbove();
      while t != null
        invariant t != null ==> Formed(t) && t.file.kind.Dir?
        invariant (dev, ino) in Ids(Above(parent)) <==> (dev, ino) in Ids(Above(t))
        decreases if t == null then 0 else |t.anc| + 1
      {
        IdsSnoc(t.anc, t);
        FormedAbove(t);
        if ino == t.file.kind.ino && dev == t.file.kind.dev {
          return DC;
        }
        t := t.parent;
      }
      info := D;
    case Link => info := SL;
    case Regular => info := F;
    case Other => info := Default;
    case Gone => info := NS;
  }

  lemma NoneAbove()
    ensures Above(null) == [] && Ids([]) == []
  {
  }

  lemma FormedAbove(e: Ent)
    requires Formed(e)
    ensures e.level >= 0 && (e.level == 0 <==> e.parent == null) && e.pathlen == |e.full|
    ensures e.anc == Above(e.parent) && (e.parent != null ==>
            Formed(e.parent) && e.parent.file.kind.Dir? && |e.parent.anc| < |e.anc|)
  {
    hide TreeOk, NamesOk, RootsOk, FirstEntry, NoEntries, Join, EndsInSlash, Deeper;
  }

  // A list of entries of the directory cur, or the list of the roots.
  ghost predicate NewList(head: Ent?, fs: Files, parent: Ent?)
    reads if head == null then [] else [head] + head.rest
  {
    if head == null then (if parent == null then fs.Nil? else NoEntries(fs))
    else
      && Formed(head) && head.parent == parent && head.anc == Above(parent)
      && (if parent == null then fs == Cons(head.file, head.more)
          else !NoEntries(fs) && FirstEntry(fs) == Cons(head.file, head.more))
      && Unvisited([head] + head.rest)
  }

  // Build the list of entries of a directory.
  method BuildList(fs: Files, cur: Ent, len: nat) returns (head: Ent?)
    requires NamesOk(fs) && Formed(cur) && cur.file.kind.Dir? && len == |Cut(cur.full)| + 1
    ensures NewList(head, fs, cur) && (head != null ==> forall q :: q in [head] + head.rest ==> fresh(q))
    decreases fs
  {
    hide Formed, Ids, TreeOk, InfoOf, Join, Cut, Deeper, Unvisited;
    match fs
    case Nil =>
      head := null;
    case Cons(f, t) =>
      var link := BuildList(t, cur, len);
      if IsDot(f.name) {
        head := link;
      } else {
        var info := Stat(f, cur);
        FormedAbove(cur);
        head := new Ent(f, cur, link, Deeper(cur.level), len + |f.name|, info, t, Join(cur.full, f.name), cur.dev);
        JoinLength(cur.full, f.name);
        ChildFormed(head);
        UnvisitedCons(head);
      }
  }

  lemma JoinLength(path: Str, name: Str)
    ensures |Join(path, name)| == |Cut(path)| + 1 + |name|
  {
  }

  lemma UnvisitedCons(e: Ent)
    requires e.info == InfoOf(e.file, Ids(e.anc)) && !e.skip && e.rest == Following(e.link)
    requires e.link != null ==> Unvisited([e.link] + e.link.rest)
    ensures Unvisited([e] + e.rest)
  {
    hide InfoOf, Ids;
  }

  lemma ChildFormed(e: Ent)
    requires e.parent != null && Formed(e.parent) && e.parent.file.kind.Dir? && e.anc == Above(e.parent)
             && e.rest == Following(e.link)
    requires e.level == Deeper(e.parent.level) && e.full == Join(e.parent.full, e.file.name) && e.pathlen == |e.full|
    requires e.dev == e.parent.dev && NamesOk(Cons(e.file, e.more)) && 0 <= e.parent.level
    requires e.link == null <==> NoEntries(e.more)
    requires e.link != null ==>
               Formed(e.link) && e.link.parent == e.parent && e.link.anc == e.anc
                   && FirstEntry(e.more) == Cons(e.link.file, e.link.more)
    ensures Formed(e)
  {
    assert e.file.name[|e.file.name| - 1] in e.file.name;
  }

  // Build the list of the roots.
  method BuildRoots(fs: Files) returns (head: Ent?)
    requires RootsOk(fs)
    ensures NewList(head, fs, null) && (head != null ==> forall q :: q in [head] + head.rest ==> fresh(q))
    decreases fs
  {
    hide Formed, Ids, TreeOk, InfoOf;
    match fs
    case Nil =>
      head := null;
    case Cons(f, t) =>
      var link := BuildRoots(t);
      var info := Stat(f, null);
      head := new Ent(f, null, link, 0, |f.name|, info, t, f.name, DevOf(f));
      RootFormed(head);
  }

  lemma RootFormed(e: Ent)
    requires e.parent == null && e.anc == [] && e.rest == Following(e.link)
    requires e.level == 0 && e.full == e.file.name && e.pathlen == |e.full| && e.dev == DevOf(e.file)
             && RootsOk(Cons(e.file, e.more))
    requires e.link == null <==> e.more.Nil?
    requires e.link != null ==>
               Formed(e.link) && e.link.parent == null && e.link.anc == [] && e.more == Cons(e.link.file, e.link.more)
    ensures Formed(e)
  {
  }

  // The dummy entry in front of a list.
  lemma FirstList(e: Ent, fs: Files)
    requires Formed(e) && e.parent == null && NewList(e.link, fs, null)
    ensures Unvisited(e.rest)
  {
    hide Formed, InfoOf, Ids;
    OwnFacts(e);
  }

  ghost predicate Owned(repr: set<Ent>, es: seq<Ent>) {
    forall e :: e in es ==> e in repr
  }

  ghost predicate Prefix(a: Str, b: Str) {
    |a| <= |b| && b[..|a|] == a
  }

  class Stream {
    const xdev: bool
    ghost const env: Env
    var cur: Ent?
    var path: Str
    var dev: int
    ghost var repr: set<Ent>

    // Everything behind the current entry is still to be visited, and the
    // path buffer starts with the path of the directory.
    ghost predicate Valid()
      reads this, cur, if cur != null && Formed(cur) then Pending(cur) else []
    {
      && xdev == env.xdev && (forall q :: env.left(q) == Cut(q))
      && (cur != null ==>
            && Formed(cur) && Unvisited(Pending(cur)) && Owned(repr, cur.anc + [cur] + Pending(cur))
            && (cur.parent != null ==> Prefix(cur.parent.full, path))
            && (cur.info.D? ==> cur.file.kind.Dir? && path == cur.full)
            && (if cur.info.Init? then cur.parent == null else dev == cur.dev))
    }

    // The visits still to come.
    ghost function Todo(): seq<Visit>
      requires Valid()
      reads this, cur, if cur != null && Formed(cur) then Pending(cur) else []
    {
      if cur == null then [] else Remaining(cur, cur.info, env)
    }

    // fts_open()
    constructor (roots: Files, xdev: bool, ghost env: Env)
      requires RootsOk(roots) && env.xdev == xdev && forall q :: env.left(q) == Cut(q)
      ensures Valid() && this.env == env && Todo() == WalkRoots(roots, env) && fresh(repr) && cur != null
              && !cur.info.D?
    {
      this.xdev, this.env := xdev, env;
      path, dev := [], 0;
      var root := BuildRoots(roots);
      // the dummy entry in front of the roots
      var dummy := new Ent(File([], Gone), null, root, 0, 0, Init, roots, [], 0);
      cur := dummy;
      repr := (set q | q in Following(root)) + {dummy};
      new;
      hide InfoOf, Walk, Formed, Pending, Unvisited, Inside, RootsOk, TreeOk;
      RootFormed(cur);
      PendingIs(cur);
      FirstList(cur, roots);
    }

    lemma AtDirectory()
      requires Valid() && cur != null && cur.info.D?
      ensures path == cur.full && cur in repr
    {
      hide Formed, Pending, Unvisited;
      FormedAbove(cur);
      OwnedHere(repr, cur, Pending(cur));
    }

    // What a call shows when these visits are still to come.
    ghost predicate Shows(todo: seq<Visit>, p: Ent?)
      requires Valid()
      reads this, cur, p, if cur != null && Formed(cur) then Pending(cur) else []
    {
      if todo == [] then p == null && cur == null
      else p != null && cur == p && todo[0] == Visit(path, p.level, p.info) && Todo() == todo[1..]
    }

    // fts_set(): ask for skipping the current directory.
    method SetSkip(p: Ent)
      requires Valid() && p == cur && p.info.D?
      modifies p`skip
      ensures Valid() && p.skip && Todo() == old(Todo())
    {
      NotPending(p);
      p.skip := true;
    }

    // Append the name of an entry to the path of its directory.
    method SetPath(p: Ent)
      requires Formed(p) && p.parent != null && Prefix(p.parent.full, path)
      modifies this`path
      ensures path == p.full && Prefix(p.parent.full, path)
    {
      hide Formed;
      DirectoryPath(p);
      var len := p.parent.pathlen;
      var n := NAppend(len);
      assert path[..n] == Cut(p.parent.full);
      path := path[..n] + [SLASH] + p.file.name;
      JoinPrefix(p.parent.full, p.file.name);
    }

    // Where to append to a path of this length.
    function NAppend(len: nat): nat
      requires 0 < len <= |path|
      reads this`path
    {
      if path[len - 1] == SLASH then len - 1 else len
    }

    // fts_build(): open the current directory and read its entries.
    method Build(p: Ent) returns (head: Ent?)
      requires Valid() && p == cur && p.info.D?
      modifies this`path, p`info
      ensures p.file.kind.Dir? && (head == null <==> !p.file.kind.readable || NoEntries(p.file.kind.kids))
      ensures head != null ==> NewList(head, p.file.kind.kids, p) && p.info.D? && Prefix(p.full, path)
      ensures head != null ==> forall q :: q in [head] + head.rest ==> fresh(q)
      ensures head == null && !p.file.kind.readable ==> p.info.DNR? && path == old(path)
      ensures head == null && p.file.kind.readable ==> p.info.DP? && path == Cut(p.full)
    {
      hide Formed, Ids, InfoOf;
      if !p.file.kind.readable {
        p.info := DNR;
        return null;
      }
      OwnPath(p);
      var len := NAppend(p.pathlen) + 1;
      path := path[..len - 1] + [SLASH];
      head := BuildList(p.file.kind.kids, p, len);
      if head == null {
        path := path[..len - 1];
        p.info := DP;
      }
    }

    // fts_read() for a directory that has only been visited in pre-order.
    method Enter(p: Ent) returns (r: Ent)
      requires Valid() && p == cur && p.info.D?
      modifies this`cur, this`path, this`repr, p`info, p`skip
      ensures Valid() && p.skip == false && fresh(repr - old(repr)) && old(repr) <= repr
      ensures old(p.skip) == env.skip(p.full) ==> old(Todo()) != [] && Shows(old(Todo()), r)
      ensures r.info.D? ==> !r.skip
    {
      hide Formed, Ids, InfoOf, WalkAll, Owned, Remaining, After;
      NotPending(p);
      SplitRemaining(p, env);
      if p.parent != null {
        NoSlashInside(p);
      }
      ghost var es := Pending(p);
      assert p !in es && Unvisited(es);
      var instr := p.skip;
      p.skip := false;
      assert Unvisited(es);
      if instr || (xdev && p.file.kind.dev != dev) {
        p.info := DP;
        return p;
      }
      var first := Build(p);
      assert Unvisited(es);
      if first == null {
        return p;
      }
      IntoDirectory(p, first, env);
      Descend(p, first);
      r := first;
    }

    // Make the first entry of a directory the current one.
    method Descend(p: Ent, first: Ent)
      requires xdev == env.xdev && (forall q :: env.left(q) == Cut(q)) && Formed(p) && Unvisited(Pending(p))
               && Owned(repr, p.anc + [p] + Pending(p))
      requires p.file.kind.Dir? && NewList(first, p.file.kind.kids, p) && Prefix(p.full, path) && dev == p.dev
      modifies this`cur, this`path, this`repr
      ensures Valid() && cur == first && Todo() == Remaining(first, first.info, env) && path == first.full
      ensures repr == old(repr) + Members([first] + first.rest)
    {
      hide Formed, Ids, InfoOf, Owned, Remaining, Members;
      FirstChild(p, first);
      OwnFacts(first);
      InfoKind(first.file, Ids(first.anc));
      UnvisitedJoin(first, Pending(p));
      ghost var es := Pending(first);
      assert Unvisited(es);
      assert first in [first] + first.rest;
      SetPath(first);
      assert Unvisited(es);
      OwnedMore(repr, p.anc + [p], Pending(p), first.rest, first);
      repr := repr + Members([first] + first.rest);
      cur := first;
    }

    // fts_read() for any other entry.
    method Leave(p: Ent) returns (r: Ent?)
      requires Valid() && p == cur && !p.info.D?
      modifies this`cur, this`path, this`dev, p`skip, (if p.parent == null then {} else {p.parent})`info
      ensures Valid() && Shows(old(Todo()), r)
      ensures r != null && r.info.D? ==> !r.skip
    {
      hide Formed, Ids, InfoOf, Walk, Remaining, After, Pending, Unvisited, Owned;
      FormedAbove(p);
      RemainingPlain(p, p.info, env);
      NotPending(p);
      p.skip := false;
      if p.link != null {
        NextSibling(p, env);
        NextFormed(p);
        r := p.link;
        FirstUnvisited(r, Pending(r));
        ghost var es := Pending(r);
        assert Unvisited(es);
        InfoKind(r.file, Ids(r.anc));
        FormedAbove(r);
        if r.level == 0 {
          path := r.file.name;
          dev := if r.file.kind.Dir? then r.file.kind.dev else 0;
          assert Unvisited(es);
        } else {
          SetPath(r);
          assert Unvisited(es);
        }
        OwnedNext(repr, p.anc, p, Pending(p), r, es);
        cur := r;
        assert Unvisited(es);
        return;
      }
      MoveUp(p, env);
      r := p.parent;
      if r == null {
        cur := null;
        return;
      }
      DirectoryPath(p);
      NotPending(r);
      if r.parent != null {
        NoSlashInside(r);
      }
      path := path[..r.pathlen];
      r.info := DP;
      RemainingPlain(r, r.info, env);
      FormedAbove(p);
      OwnedUp(repr, r.anc, r, p, Pending(r));
      cur := r;
    }

    // fts_read(): show the next entry; the user may have asked to skip the
    // directory shown last, just as the environment says.
    method Read() returns (r: Ent?)
      requires Valid() && (cur != null && cur.info.D? ==> cur.skip == env.skip(cur.full))
      modifies this`cur, this`path, this`dev, this`repr, repr`info, repr`skip
      ensures Valid() && Shows(old(Todo()), r) && fresh(repr - old(repr))
      ensures r != null && r.info.D? ==> !r.skip
    {
      if cur == null {
        return null;
      }
      OwnedHere(repr, cur, Pending(cur));
      FormedAbove(cur);
      if cur.info.D? {
        r := Enter(cur);
      } else {
        r := Leave(cur);
      }
    }
  }

  lemma OwnedMore(repr: set<Ent>, anc: seq<Ent>, es: seq<Ent>, rest: seq<Ent>, e: Ent)
    requires Owned(repr, anc + es)
    ensures Owned(repr + Members([e] + rest), anc + [e] + (rest + es))
  {
    forall q | q in anc + [e] + (rest + es)
      ensures q in repr + Members([e] + rest)
    {
      assert q in anc || q == e || q in rest || q in es;
      assert q in anc || q in es ==> q in anc + es;
      assert q == e || q in rest ==> q in [e] + rest;
    }
  }

  ghost function Members(es: seq<Ent>): set<Ent> {
    set q | q in es
  }

  lemma OwnedNext(repr: set<Ent>, anc: seq<Ent>, p: Ent, es: seq<Ent>, r: Ent, es': seq<Ent>)
    requires Owned(repr, anc + [p] + es) && es == [r] + es'
    ensures Owned(repr, anc + [r] + es')
  {
  }

  lemma OwnedUp(repr: set<Ent>, anc: seq<Ent>, r: Ent, p: Ent, es: seq<Ent>)
    requires Owned(repr, anc + [r] + [p] + es)
    ensures Owned(repr, anc + [r] + es)
  {
  }

  lemma OwnedHere(repr: set<Ent>, e: Ent, es: seq<Ent>)
    requires Owned(repr, e.anc + [e] + es) && e.anc == Above(e.parent)
    ensures e in repr && (e.parent != null ==> e.parent in repr)
  {
    assert e in e.anc + [e] + es;
    assert e.parent != null ==> e.parent in e.anc;
  }

  // What fts_open() and repeated calls of fts_read() show; a slash at the end
  // of the path is lost when an empty directory is left.
  method Traverse(roots: Files, xdev: bool, skip: Str -> bool) returns (visits: seq<Visit>)
    requires RootsOk(roots)
    ensures visits == WalkRoots(roots, Env(xdev, skip, Cut))
  {
    hide Walk, WalkRoots, RootsOk, TreeOk, Formed, Pending, Unvisited, Owned, Remaining, Stream.Valid, Stream.Todo,
        InfoOf, Cut;
    ghost var env := Env(xdev, skip, Cut);
    var s := new Stream(roots, xdev, env);
    ghost var all := s.Todo();
    visits := [];
    var p := s.Read();
    while p != null
      invariant s.Valid() && fresh(s) && fresh(s.repr) && s.env == env && s.cur == p
      invariant p != null ==>
                  && visits + [Visit(s.path, p.level, p.info)] + s.Todo() == all
                  && (p.info.D? ==> !p.skip)
      invariant p == null ==> visits == all
      decreases |all| - |visits|, p != null
    {
      if p.info.D? {
        s.AtDirectory();
      }
      visits := visits + [Visit(s.path, p.level, p.info)];
      if p.info.D? && skip(s.path) {
        s.SetSkip(p);
      }
      ghost var todo := s.Todo();
      p := s.Read();
      assert todo != [] ==> todo == [todo[0]] + todo[1..];
    }
  }

  lemma SplitRemaining(e: Ent, env: Env)
    requires Formed(e) && e.file.kind.Dir?
    ensures Remaining(e, D, env) == Inside(e.file, e.full, e.level, Ids(e.anc), e.dev, env) + After(e, env)
    ensures Remaining(e, DP, env) == Remaining(e, DNR, env) == After(e, env)
  {
    hide Formed, Ids, Inside, After;
  }

  lemma FirstUnvisited(e: Ent, es: seq<Ent>)
    requires Unvisited([e] + es)
    ensures e.info == InfoOf(e.file, Ids(e.anc)) && !e.skip && Unvisited(es)
  {
    hide InfoOf, Ids;
    assert e in [e] + es;
    assert forall q :: q in es ==> q in [e] + es;
  }

  // What is known about the first entry of a directory.
  lemma FirstChild(p: Ent, head: Ent)
    requires Formed(p) && p.file.kind.Dir? && NewList(head, p.file.kind.kids, p)
    ensures Formed(head) && Pending(head) == head.rest + Pending(p) && head.parent == p
    ensures !NoEntries(p.file.kind.kids) && FirstEntry(p.file.kind.kids) == Cons(head.file, head.more)
    ensures head.full == Join(p.full, head.file.name) && head.level == Deeper(p.level) && head.dev == p.dev
    ensures head.anc == p.anc + [p] && head.info == InfoOf(head.file, Ids(head.anc))
  {
    hide TreeOk, NamesOk, RootsOk, EndsInSlash, FirstEntry, NoEntries, Join, InfoOf, Ids;
    assert head in [head] + head.rest;
  }

  lemma IntoDirectory(p: Ent, head: Ent, env: Env)
    requires Formed(p) && p.file.kind.Dir? && p.file.kind.readable && NewList(head, p.file.kind.kids, p)
    ensures Formed(head) && Pending(head) == head.rest + Pending(p) && (head.info.D? ==> head.file.kind.Dir?)
            && head.parent == p
    ensures
      var walk := WalkAll(p.file.kind.kids, p.full, Deeper(p.level), Ids(p.anc) + [(p.file.kind.dev, p.file.kind.ino)],
          p.dev, env);
      walk + [Visit(p.full, p.level, DP)] + After(p, env)
      == [Visit(head.full, head.level, head.info)] + Remaining(head, head.info, env)
  {
    hide Formed, Pending, NewList, FirstEntry, NoEntries, Join, Deeper, InfoOf, Walk, WalkAll, Inside, Ids;
    FirstChild(p, head);
    IdsSnoc(p.anc, p);
    InfoKind(head.file, Ids(head.anc));
    WalkFirst(p.file.kind.kids, p.full, Deeper(p.level), Ids(head.anc), p.dev, env);
    WalkStarts(head.file, head.full, head.level, Ids(head.anc), head.dev, env);
    AfterChild(head, p, env);
  }

  lemma UnvisitedJoin(head: Ent, es: seq<Ent>)
    requires Unvisited([head] + head.rest) && Unvisited(es)
    ensures Unvisited(head.rest + es)
  {
    hide InfoOf, Ids;
    assert forall q :: q in head.rest ==> q in [head] + head.rest;
  }

  lemma AfterChild(e: Ent, p: Ent, env: Env)
    requires Formed(e) && e.parent == p && Formed(p)
    ensures After(e, env) == WalkAll(e.more, p.full, e.level, Ids(e.anc), e.dev, env) + [Visit(p.full, p.level, DP)]
            + After(p, env)
  {
    hide Formed, WalkAll, Ids;
  }

  lemma NoSlashInside(e: Ent)
    requires Formed(e) && e.parent != null
    ensures Cut(e.full) == e.full && Prefix(e.parent.full, e.full)
  {
    DirectoryPath(e);
    JoinPrefix(e.parent.full, e.file.name);
    hide TreeOk, NamesOk, RootsOk, FirstEntry, NoEntries, Join, Deeper, Prefix;
  }

  // The path of a directory is not empty, and its length is stored.
  lemma OwnPath(e: Ent)
    requires Formed(e) && e.file.kind.Dir?
    ensures 0 < e.pathlen == |e.full| && NamesOk(e.file.kind.kids)
    ensures EndsInSlash(e.full) ==> Cut(e.full) + [SLASH] == e.full
  {
    hide NamesOk, RootsOk, FirstEntry, NoEntries, Deeper;
  }

  lemma DirectoryPath(e: Ent)
    requires Formed(e) && e.parent != null
    ensures e.full == Join(e.parent.full, e.file.name)
    ensures 0 < e.parent.pathlen == |e.parent.full| && Formed(e.parent) && e.parent.file.kind.Dir?
            && e.dev == e.parent.dev
  {
    FormedAbove(e);
    OwnPath(e.parent);
    hide TreeOk, NamesOk, RootsOk, FirstEntry, NoEntries, Deeper;
  }

  lemma JoinPrefix(path: Str, name: Str)
    ensures Prefix(path, Join(path, name))
  {
    assert EndsInSlash(path) ==> Cut(path) + [SLASH] == path;
  }

  /*** which entries are shown, and at which level **********************************/

  // Is this one of the files?
  predicate Among(fs: Files, f: File) {
    fs.Cons? && (fs.head == f || Among(fs.tail, f))
  }

  // Is this directory opened, when it has this path and these are above it?
  predicate Opened(f: File, path: Str, above: seq<Id>, dev: int, env: Env) {
    && f.kind.Dir? && f.kind.readable && (f.kind.dev, f.kind.ino) !in above && !env.skip(path)
    && (env.xdev ==> f.kind.dev == dev)
  }

  // Do these names, one directory after the other, lead from f to g, and are
  // all these directories opened?
  ghost predicate Leads(f: File, names: seq<Str>, g: File, path: Str, above: seq<Id>, dev: int, env: Env)
    decreases |names|
  {
    if names == [] then g == f
    else
      && Opened(f, path, above, dev, env)
      && exists k :: Among(f.kind.kids, k) && k.name == names[0] && !IsDot(k.name)
          && Leads(k, names[1..], g, Join(path, k.name), above + [(f.kind.dev, f.kind.ino)], dev, env)
  }

  // The path of a directory followed by names, with a slash before each.
  function Joined(names: seq<Str>): Str {
    if names == [] then [] else [SLASH] + names[0] + Joined(names[1..])
  }

  predicate Fitting(info: Info, f: File) {
    match f.kind
    case Dir(_, _, _, _) => info.D? || info.DC? || info.DP? || info.DNR?
    case Link => info.SL?
    case Regular => info.F?
    case Other => info.Default?
    case Gone => info.NS?
  }

  // The visit is one to g, which these names behind this path lead to.
  ghost predicate VisitTo(v: Visit, f: File, names: seq<Str>, g: File, path: Str, level: nat, above: seq<Id>,
                          dev: int, env: Env)
  {
    && Leads(f, names, g, path, above, dev, env) && Fitting(v.info, g)
    && v.level == (if level + |names| <= MAXLEVEL then level + |names| else MAXLEVEL)
    && (v.path == (if names == [] then path else Cut(path) + Joined(names))
        || (names == [] && v.path == Cut(path) && v.info.DP?))
  }

  lemma NoNames(v: Visit, f: File, path: Str, level: nat, above: seq<Id>, dev: int, env: Env)
    requires Fitting(v.info, f) && v.level == level <= MAXLEVEL
    requires v.path == path || (v.path == Cut(path) && v.info.DP?)
    ensures VisitTo(v, f, [], f, path, level, above, dev, env)
  {
  }

  lemma OneMore(v: Visit, f: File, k: File, names: seq<Str>, g: File, path: Str, level: nat, above: seq<Id>, dev: int,
                env: Env)
    requires Opened(f, path, above, dev, env) && Among(f.kind.kids, k) && !IsDot(k.name) && level <= MAXLEVEL
    requires k.name != [] && SLASH !in k.name
    requires VisitTo(v, k, names, g, Join(path, k.name), Deeper(level), above + [(f.kind.dev, f.kind.ino)], dev, env)
    ensures VisitTo(v, f, [k.name] + names, g, path, level, above, dev, env)
  {
    hide Leads, Join, Cut, TreeOk, Joined, Opened, EndsInSlash;
    LeadsOn(f, k, names, g, path, above, dev, env);
    JoinedOn(path, k.name, names);
  }

  lemma LeadsOn(f: File, k: File, names: seq<Str>, g: File, path: Str, above: seq<Id>, dev: int, env: Env)
    requires Opened(f, path, above, dev, env) && Among(f.kind.kids, k) && !IsDot(k.name)
    requires Leads(k, names, g, Join(path, k.name), above + [(f.kind.dev, f.kind.ino)], dev, env)
    ensures Leads(f, [k.name] + names, g, path, above, dev, env)
  {
    hide Join, Opened;
    assert ([k.name] + names)[1..] == names;
  }

  lemma JoinedOn(path: Str, name: Str, names: seq<Str>)
    requires name != [] && SLASH !in name
    ensures Cut(Join(path, name)) == Join(path, name)
    ensures Cut(path) + Joined([name] + names) == Join(path, name) + Joined(names)
    ensures Joined([]) == []
  {
    assert name[|name| - 1] in name;
    assert ([name] + names)[1..] == names;
  }

  lemma {:induction false} KidsOk(fs: Files, k: File)
    requires NamesOk(fs) && Among(fs, k)
    ensures k.name != [] && SLASH !in k.name && TreeOk(k)
    decreases fs
  {
    if fs.head != k {
      KidsOk(fs.tail, k);
    }
  }

  // Whatever is shown is an entry that names lead to.
  lemma {:induction false} WalkShows(f: File, path: Str, level: nat, above: seq<Id>, dev: int, env: Env, v: Visit)
    requires TreeOk(f) && level <= MAXLEVEL && v in Walk(f, path, level, above, dev, env)
    requires forall q :: env.left(q) == Cut(q)
    ensures exists names, g :: VisitTo(v, f, names, g, path, level, above, dev, env)
    decreases f, 2
  {
    hide VisitTo;
    var inside := if f.kind.Dir? then above + [(f.kind.dev, f.kind.ino)] else [];
    if f.kind.Dir? && v in WalkAll(f.kind.kids, path, Deeper(level), inside, dev, env)
       && Opened(f, path, above, dev, env) {
      var k, names, g := AllShow(f.kind.kids, path, Deeper(level), inside, dev, env, v);
      KidsOk(f.kind.kids, k);
      OneMore(v, f, k, names, g, path, level, above, dev, env);
    } else {
      NoNames(v, f, path, level, above, dev, env);
    }
  }

  lemma {:induction false} AllShow(fs: Files, path: Str, level: nat, above: seq<Id>, dev: int, env: Env, v: Visit)
    returns (k: File, names: seq<Str>, g: File)
    requires NamesOk(fs) && level <= MAXLEVEL && v in WalkAll(fs, path, level, above, dev, env)
    requires forall q :: env.left(q) == Cut(q)
    ensures Among(fs, k) && !IsDot(k.name) && VisitTo(v, k, names, g, Join(path, k.name), level, above, dev, env)
    decreases fs, 0
  {
    hide VisitTo, Walk;
    if v in WalkAll(fs.tail, path, level, above, dev, env) {
      k, names, g := AllShow(fs.tail, path, level, above, dev, env, v);
    } else {
      k := fs.head;
      WalkShows(k, Join(path, k.name), level, above, dev, env, v);
      names, g :| VisitTo(v, k, names, g, Join(path, k.name), level, above, dev, env);
    }
  }

  // And every entry that names lead to is shown.
  lemma {:induction false} WalkShowsAll(f: File, names: seq<Str>, g: File, path: Str, level: nat, above: seq<Id>,
                                        dev: int, env: Env)
    requires TreeOk(f) && level <= MAXLEVEL && Leads(f, names, g, path, above, dev, env)
    ensures exists v :: v in Walk(f, path, level, above, dev, env) && !v.info.DP? && !v.info.DNR?
              && VisitTo(v, f, names, g, path, level, above, dev, env)
    decreases |names|
  {
    hide VisitTo, Inside;
    WalkStarts(f, path, level, above, dev, env);
    if names == [] {
      var v := Visit(path, level, InfoOf(f, above));
      NoNames(v, f, path, level, above, dev, env);
    } else {
      var inside := above + [(f.kind.dev, f.kind.ino)];
      var k :| Among(f.kind.kids, k) && k.name == names[0] && !IsDot(k.name)
        && Leads(k, names[1..], g, Join(path, k.name), inside, dev, env);
      KidsOk(f.kind.kids, k);
      WalkShowsAll(k, names[1..], g, Join(path, k.name), Deeper(level), inside, dev, env);
      var v :| v in Walk(k, Join(path, k.name), Deeper(level), inside, dev, env) && !v.info.DP? && !v.info.DNR?
        && VisitTo(v, k, names[1..], g, Join(path, k.name), Deeper(level), inside, dev, env);
      InAll(f.kind.kids, k, path, Deeper(level), inside, dev, env, v);
      InInside(f, k, path, level, above, dev, env, v);
      OneMore(v, f, k, names[1..], g, path, level, above, dev, env);
      assert names == [k.name] + names[1..];
    }
  }

  lemma {:induction false} InAll(fs: Files, k: File, path: Str, level: int, above: seq<Id>, dev: int, env: Env,
                                 v: Visit)
    requires Among(fs, k) && !IsDot(k.name) && v in Walk(k, Join(path, k.name), level, above, dev, env)
    ensures v in WalkAll(fs, path, level, above, dev, env) && !NoEntries(fs)
    decreases fs
  {
    hide Walk;
    if fs.head != k {
      InAll(fs.tail, k, path, level, above, dev, env, v);
    }
  }

  lemma InInside(f: File, k: File, path: Str, level: int, above: seq<Id>, dev: int, env: Env, v: Visit)
    requires Opened(f, path, above, dev, env) && !NoEntries(f.kind.kids)
    requires v in WalkAll(f.kind.kids, path, Deeper(level), above + [(f.kind.dev, f.kind.ino)], dev, env)
    ensures v in Inside(f, path, level, above, dev, env) && InfoOf(f, above).D?
  {
    hide WalkAll;
  }

  // The visit is one to an entry that so many names lead to from a root.
  ghost predicate VisitBelow(v: Visit, roots: Files, r: File, names: seq<Str>, g: File, env: Env) {
    Among(roots, r) && VisitTo(v, r, names, g, r.name, 0, [], DevOf(r), env)
  }

  // An entry is shown exactly if names lead to it from some root through
  // directories that are all opened, and it is shown with these names behind
  // the path of the root, and with their number as its level.
  lemma {:induction false} ShownAtDepth(roots: Files, env: Env)
    requires RootsOk(roots) && forall q :: env.left(q) == Cut(q)
    ensures forall v :: v in WalkRoots(roots, env) ==> exists r, names, g :: VisitBelow(v, roots, r, names, g, env)
    ensures forall r, names, g :: Among(roots, r) && Leads(r, names, g, r.name, [], DevOf(r), env) ==>
              exists v :: v in WalkRoots(roots, env) && !v.info.DP? && !v.info.DNR?
                  && VisitBelow(v, roots, r, names, g, env)
    decreases roots
  {
    hide VisitTo, Walk, TreeOk, Leads;
    if roots.Cons? {
      var f, t := roots.head, roots.tail;
      ShownAtDepth(t, env);
      forall v | v in WalkRoots(roots, env)
        ensures exists r, names, g :: VisitBelow(v, roots, r, names, g, env)
      {
        if v in WalkRoots(t, env) {
          var r, names, g :| VisitBelow(v, t, r, names, g, env);
          assert VisitBelow(v, roots, r, names, g, env);
        } else {
          WalkShows(f, f.name, 0, [], DevOf(f), env, v);
          var names, g :| VisitTo(v, f, names, g, f.name, 0, [], DevOf(f), env);
          assert VisitBelow(v, roots, f, names, g, env);
        }
      }
      forall r, names, g | Among(roots, r) && Leads(r, names, g, r.name, [], DevOf(r), env)
        ensures exists v :: v in WalkRoots(roots, env) && !v.info.DP? && !v.info.DNR?
                  && VisitBelow(v, roots, r, names, g, env)
      {
        if r == f {
          WalkShowsAll(f, names, g, f.name, 0, [], DevOf(f), env);
          var v :| v in Walk(f, f.name, 0, [], DevOf(f), env) && !v.info.DP? && !v.info.DNR?
            && VisitTo(v, f, names, g, f.name, 0, [], DevOf(f), env);
          assert VisitBelow(v, roots, r, names, g, env);
        } else {
          var v :| v in WalkRoots(t, env) && !v.info.DP? && !v.info.DNR? && VisitBelow(v, t, r, names, g, env);
          assert VisitBelow(v, roots, r, names, g, env);
        }
      }
    }
  }

  /*** paths of empty directories **************************************************/

  ghost predicate Alike(e1: Env, e2: Env) {
    e1.xdev == e2.xdev && e1.skip == e2.skip && forall q :: !EndsInSlash(q) ==> e1.left(q) == e2.left(q)
  }

  // It makes no difference below a root what is shown for paths that end in a
  // slash.
  lemma {:induction false} SameInside(f: File, path: Str, level: int, ids: seq<Id>, dev: int, e1: Env, e2: Env)
    requires Alike(e1, e2) && f.kind.Dir? && TreeOk(f)
    requires !EndsInSlash(path) || e1.left(path) == e2.left(path) || !NoEntries(f.kind.kids)
    ensures Inside(f, path, level, ids, dev, e1) == Inside(f, path, level, ids, dev, e2)
    decreases f, 1
  {
    SameAll(f.kind.kids, path, Deeper(level), ids + [(f.kind.dev, f.kind.ino)], dev, e1, e2);
  }

  lemma {:induction false} SameAll(fs: Files, path: Str, level: int, ids: seq<Id>, dev: int, e1: Env, e2: Env)
    requires Alike(e1, e2) && NamesOk(fs)
    ensures WalkAll(fs, path, level, ids, dev, e1) == WalkAll(fs, path, level, ids, dev, e2)
    decreases fs, 0
  {
    if fs.Cons? {
      SameAll(fs.tail, path, level, ids, dev, e1, e2);
      var f := fs.head;
      if f.kind.Dir? {
        assert f.name[|f.name| - 1] in f.name;
        SameInside(f, Join(path, f.name), level, ids, dev, e1, e2);
      }
      WalkStarts(f, Join(path, f.name), level, ids, dev, e1);
      WalkStarts(f, Join(path, f.name), level, ids, dev, e2);
    }
  }

  // The path of this root is cut when it is left.
  predicate LosesSlash(f: File, env: Env) {
    f.kind.Dir? && EndsInSlash(f.name) && !env.skip(f.name) && f.kind.readable && NoEntries(f.kind.kids)
  }

  lemma RootShown(f: File, e1: Env, e2: Env)
    requires Alike(e1, e2) && TreeOk(f) && (forall q :: e1.left(q) == Cut(q)) && (forall q :: e2.left(q) == q)
    ensures
      var w1, w2 := Walk(f, f.name, 0, [], DevOf(f), e1), Walk(f, f.name, 0, [], DevOf(f), e2);
      |w1| == |w2| && (w1 == w2 <==> !LosesSlash(f, e1))
  {
    hide WalkAll;
    WalkStarts(f, f.name, 0, [], DevOf(f), e1);
    WalkStarts(f, f.name, 0, [], DevOf(f), e2);
    if LosesSlash(f, e1) {
      var w1, w2 := Walk(f, f.name, 0, [], DevOf(f), e1), Walk(f, f.name, 0, [], DevOf(f), e2);
      assert w1[1] == Visit(Cut(f.name), 0, DP) && w2[1] == Visit(f.name, 0, DP);
    } else if f.kind.Dir? && f.kind.readable && (!EndsInSlash(f.name) || !NoEntries(f.kind.kids)) {
      SameInside(f, f.name, 0, [], DevOf(f), e1, e2);
    }
  }

  ghost predicate NoneLosesSlash(fs: Files, env: Env) {
    fs.Nil? || (!LosesSlash(fs.head, env) && NoneLosesSlash(fs.tail, env))
  }

  // The path shown is always that of the entry, exactly if no empty directory
  // has been given with a slash at its end.
  lemma {:induction false} PathsKept(fs: Files, e1: Env, e2: Env)
    requires Alike(e1, e2) && RootsOk(fs) && (forall q :: e1.left(q) == Cut(q)) && (forall q :: e2.left(q) == q)
    ensures |WalkRoots(fs, e1)| == |WalkRoots(fs, e2)|
    ensures WalkRoots(fs, e1) == WalkRoots(fs, e2) <==> NoneLosesSlash(fs, e1)
    decreases fs
  {
    hide Walk, LosesSlash, Alike;
    if fs.Cons? {
      var f := fs.head;
      PathsKept(fs.tail, e1, e2);
      RootShown(f, e1, e2);
      SameConcat(Walk(f, f.name, 0, [], DevOf(f), e1), WalkRoots(fs.tail, e1),
                 Walk(f, f.name, 0, [], DevOf(f), e2), WalkRoots(fs.tail, e2));
    }
  }

  // For example, the empty directory "a/" is left as "a".
  lemma SlashLost(env: Env, dev: int, ino: int)
    requires !env.skip([97, SLASH]) && forall q :: env.left(q) == Cut(q)
    ensures
      var root := File([97, SLASH], Dir(dev, ino, true, Nil));
      && RootsOk(Cons(root, Nil)) && LosesSlash(root, env)
      && WalkRoots(Cons(root, Nil), env) == [Visit([97, SLASH], 0, D), Visit([97], 0, DP)]
  {
    var root := File([97, SLASH], Dir(dev, ino, true, Nil));
    assert Cut([97, SLASH]) == [97];
    assert InfoOf(root, []) == D;
    assert WalkRoots(Nil, env) == [];
    assert Walk(root, root.name, 0, [], dev, env) == [Visit([97, SLASH], 0, D)] + [Visit([97], 0, DP)];
  }

  lemma SameConcat<T>(a: seq<T>, b: seq<T>, c: seq<T>, d: seq<T>)
    requires |a| == |c| && |b| == |d|
    ensures a + b == c + d <==> a == c && b == d
  {
    if a + b == c + d {
      assert a == (a + b)[..|a|] == (c + d)[..|c|] == c;
      assert b == (a + b)[|a|..] == (c + d)[|c|..] == d;
    }
  }
}
