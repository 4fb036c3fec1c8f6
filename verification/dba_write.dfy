// Low-level writing to the database file: userland/mandoc/dba_write.c.
module DbaWrite {
  import opened Bytes
  import opened Options

  // The file after writing s at position pos.
  function Put(buf: Str, pos: nat, s: Str): (r: Str)
    requires pos <= |buf|
    ensures |r| == if pos + |s| <= |buf| then |buf| else pos + |s|
  {
    buf[..pos] + s + (if pos + |s| <= |buf| then buf[pos + |s|..] else [])
  }

  // Writing at the end of the file appends.
  lemma PutAppends(buf: Str, s: Str)
    ensures Put(buf, |buf|, s) == buf + s
  {
  }

  lemma PutNothing(buf: Str, pos: nat)
    requires pos <= |buf|
    ensures Put(buf, pos, []) == buf && Put(buf, pos, Ints([])) == buf
  {
  }

  // Writing elsewhere replaces as many bytes as are written.
  lemma PutReplaces(pre: Str, gap: Str, post: Str, s: Str)
    requires |gap| == |s|
    ensures Put(pre + gap + post, |pre|, s) == pre + s + post
  {
    var buf := pre + gap + post;
    assert buf[..|pre|] == pre;
    assert buf[|pre| + |s|..] == post;
  }

  lemma PutTwice(buf: Str, pos: nat, s: Str, t: Str)
    requires pos <= |buf|
    ensures Put(Put(buf, pos, s), pos + |s|, t) == Put(buf, pos, s + t)
  {
  }

  // The output file with its current position.
  class Stream {
    var buf: Str
    var pos: nat

    ghost predicate Valid()
      reads this
    {
      pos <= |buf|
    }

    // Open a new file for writing.
    constructor ()
      ensures Valid() && buf == [] && pos == 0
    {
      buf, pos := [], 0;
    }

    // The current position; the program gives up on files of 2 gigabytes.
    method Tell() returns (r: Option<nat>)
      ensures r == if pos < INT32_MAX then Some(pos) else None
    {
      if pos >= INT32_MAX {
        return None;
      }
      r := Some(pos);
    }

    method Seek(p: nat)
      requires p <= |buf|
      modifies this`pos
      ensures Valid() && pos == p
    {
      pos := p;
    }

    method CharWrite(c: Byte)
      requires Valid()
      modifies this
      ensures Valid() && pos == old(pos) + 1
      ensures buf == Put(old(buf), old(pos), [c])
    {
      buf := buf[..pos] + [c] + (if pos < |buf| then buf[pos + 1..] else []);
      pos := pos + 1;
    }

    // Write a block of bytes, like fwrite(3) and fputs(3) do.
    method BlockWrite(s: Str)
      requires Valid()
      modifies this
      ensures Valid() && pos == old(pos) + |s|
      ensures buf == Put(old(buf), old(pos), s)
    {
      ghost var b, p := buf, pos;
      for i := 0 to |s|
        invariant Valid() && pos == p + i
        invariant buf == Put(b, p, s[..i])
      {
        CharWrite(s[i]);
        PutTwice(b, p, s[..i], [s[i]]);
        assert s[..i + 1] == s[..i] + [s[i]];
      }
      assert s[..|s|] == s;
    }

    // Write a string and its terminating NUL byte.
    method StrWrite(s: Str)
      requires Valid() && NoNul(s)
      modifies this
      ensures Valid() && pos == old(pos) + |s| + 1
      ensures buf == Put(old(buf), old(pos), StrBytes(s))
    {
      BlockWrite(s);
      CharWrite(0);
      PutTwice(old(buf), old(pos), s, [0]);
    }

    method IntWrite(i: nat)
      requires Valid() && i <= INT32_MAX
      modifies this
      ensures Valid() && pos == old(pos) + 4
      ensures buf == Put(old(buf), old(pos), IntBytes(i))
    {
      BlockWrite(IntBytes(i));
    }

    // Fill up with NUL bytes to a multiple of four; return the new position.
    method Align() returns (r: Option<nat>)
      requires Valid()
      modifies this
      ensures Valid()
      ensures r == if old(pos) < INT32_MAX then Some(pos) else None
      ensures r.None? ==> |buf| >= INT32_MAX
      ensures r.Some? ==> pos == old(pos) + PadLen(old(pos))
      ensures r.Some? ==> buf == Put(old(buf), old(pos), Zeros(PadLen(old(pos))))
    {
      var p: nat :- Tell();
      ghost var b, p0 := buf, p;
      assert Zeros(0) == [];
      while p % 4 != 0
        invariant Valid() && p == pos && p0 <= p <= p0 + PadLen(p0)
        invariant buf == Put(b, p0, Zeros(p - p0))
        decreases p0 + 4 - p
      {
        PutTwice(b, p0, Zeros(p - p0), [0]);
        assert Zeros(p - p0) + [0] == Zeros(p + 1 - p0);
        CharWrite(0);
        p := p + 1;
      }
      r := Some(p);
    }

    // Leave room for sz groups of nmemb integers; return where it starts.
    method Skip(nmemb: nat, sz: nat) returns (r: Option<nat>)
      requires Valid() && 0 < nmemb <= 5
      modifies this
      ensures Valid()
      ensures r == if old(pos) < INT32_MAX then Some(old(pos)) else None
      ensures r.None? ==> |buf| >= INT32_MAX
      ensures r.Some? ==> pos == old(pos) + 4 * nmemb * sz
      ensures r.Some? ==> buf == Put(old(buf), old(pos), Zeros(4 * nmemb * sz))
    {
      var p: nat :- Tell();
      ghost var b := buf;
      assert Zeros(0) == [];
      for i := 0 to sz
        invariant Valid() && pos == p + 4 * nmemb * i
        invariant buf == Put(b, p, Zeros(4 * nmemb * i))
      {
        var n, k := 4 * nmemb, 4 * nmemb * i;
        assert k + n == 4 * nmemb * (i + 1);
        PutTwice(b, p, Zeros(k), Zeros(n));
        assert Zeros(k) + Zeros(n) == Zeros(k + n);
        BlockWrite(Zeros(4 * nmemb));
      }
      r := Some(p);
    }
  }
}
