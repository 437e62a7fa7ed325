/** The read loop of tail for input that cannot be sought: it keeps the last lines or bytes,
    or with +N passes on everything from line or byte N. */
module Tail {
  import opened Bits

  const NL: Byte := 10
  const INT_MAX := 0x7fff_ffff

  function Newlines(s: seq<Byte>): (n: nat)
    ensures n <= |s|
  {
    if s == [] then 0 else Newlines(s[..|s| - 1]) + (if s[|s| - 1] == NL then 1 else 0)
  }

  lemma {:induction false} NewlinesAppend(a: seq<Byte>, b: seq<Byte>)
    ensures Newlines(a + b) == Newlines(a) + Newlines(b)
  {
    if b == [] {
      assert a + b == a;
    } else {
      assert (a + b)[..|a + b| - 1] == a + b[..|b| - 1];
      NewlinesAppend(a, b[..|b| - 1]);
    }
  }

  predicate Unfinished(s: seq<Byte>)
  {
    s != [] && s[|s| - 1] != NL
  }

  /** An unfinished last line counts as a line. */
  function Lines(s: seq<Byte>): (n: nat)
  {
    Newlines(s) + (if Unfinished(s) then 1 else 0)
  }

  /** The last k bytes. */
  function End(data: seq<Byte>, k: nat): (s: seq<Byte>)
    requires k <= |data|
    ensures |s| == k
  {
    data[|data| - k..]
  }

  /** The last k bytes are the longest end of data with at most n lines. */
  ghost predicate LongestEnd(n: nat, data: seq<Byte>, k: nat)
  {
    && k <= |data| && Lines(End(data, k)) <= n
    && forall j :: k < j <= |data| ==> Lines(End(data, j)) > n
  }

  /** s is the longest end of data with at most n lines. */
  ghost predicate LastLines(n: nat, data: seq<Byte>, s: seq<Byte>)
  {
    LongestEnd(n, data, |s|) && s == End(data, |s|)
  }

  /** There is only one. */
  lemma LastLinesUnique(n: nat, data: seq<Byte>, s: seq<Byte>, t: seq<Byte>)
    requires LastLines(n, data, s) && LastLines(n, data, t)
    ensures s == t
  {
    hide Lines, End;
  }

  lemma OneByteNewlines(b: Byte)
    ensures Newlines([b]) == if b == NL then 1 else 0
  {
    assert [b][..0] == [];
  }

  /** It begins at the beginning of a line. */
  lemma LastLinesWhole(n: nat, data: seq<Byte>, s: seq<Byte>)
    requires LastLines(n, data, s) && n >= 1 && s != data && s != []
    ensures data[|data| - |s| - 1] == NL
  {
    var i := |data| - |s| - 1;
    assert End(data, |s| + 1) == [data[i]] + s;
    NewlinesAppend([data[i]], s);
    OneByteNewlines(data[i]);
    assert Lines(End(data, |s| + 1)) > n;
  }

  lemma EndOf(a: seq<Byte>, b: seq<Byte>, k: nat)
    requires k <= |a + b|
    ensures End(a + b, k) == if k <= |b| then End(b, k) else End(a, k - |b|) + b
  {
  }

  /** After more input, what is kept of the old input and the new input hold the answer: what was
      dropped stays dropped. */
  lemma KeepMore(n: nat, data: seq<Byte>, kept: seq<Byte>, more: seq<Byte>, s: seq<Byte>)
    requires LastLines(n, data, kept) && LastLines(n, kept + more, s) && n >= 1 && more != []
    ensures LastLines(n, data + more, s)
  {
    hide Lines, Newlines, End;
    var all, part := data + more, kept + more;
    EndsAgree(data, kept, more, |s|);
    forall j | |s| < j <= |all| ensures Lines(End(all, j)) > n {
      if j <= |part| {
        EndsAgree(data, kept, more, j);
      } else {
        EndOf(data, more, j);
        assert Lines(End(data, j - |more|)) > n;
        MoreLines(End(data, j - |more|), more);
      }
    }
  }

  lemma EndsAgree(data: seq<Byte>, kept: seq<Byte>, more: seq<Byte>, k: nat)
    requires |kept| <= |data| && kept == End(data, |kept|) && k <= |kept + more|
    ensures End(data + more, k) == End(kept + more, k)
  {
    hide End;
    EndOf(data, more, k);
    EndOf(kept, more, k);
    if k > |more| {
      EndOfEnd(data, |kept|, k - |more|);
    }
  }

  lemma EndOfEnd(data: seq<Byte>, m: nat, k: nat)
    requires k <= m <= |data|
    ensures End(End(data, m), k) == End(data, k)
  {
  }

  lemma MoreLines(was: seq<Byte>, more: seq<Byte>)
    requires more != []
    ensures Lines(was + more) >= Lines(was)
  {
    NewlinesAppend(was, more);
    if Unfinished(was) && !Unfinished(more) {
      LastNewline(more);
    }
  }

  lemma LastNewline(s: seq<Byte>)
    requires s != [] && !Unfinished(s)
    ensures Newlines(s) >= 1
  {
  }

  /** Dropping exactly the lines too many leaves the last n. */
  lemma DropLines(n: nat, s: seq<Byte>, at: nat)
    requires at <= |s| && Lines(s) >= n >= 1 && Newlines(s[..at]) == Lines(s) - n
    requires at == 0 || s[at - 1] == NL
    ensures at < |s| && LastLines(n, s, s[at..])
  {
    hide Newlines;
    var rest := s[at..];
    assert s == s[..at] + rest;
    NewlinesAppend(s[..at], rest);
    assert rest == [] ==> Newlines(rest) == 0 by { NoNewlines(); }
    assert End(s, |rest|) == rest;
    forall j | |rest| < j <= |s| ensures Lines(End(s, j)) > n {
      var i := |s| - j;
      assert End(s, j) == s[i..at] + rest;
      NewlinesAppend(s[i..at], rest);
      LastNewline(s[i..at]);
    }
  }

  lemma NoNewlines()
    ensures Newlines([]) == 0
  {
  }

  lemma AllKept(n: nat, s: seq<Byte>)
    requires Lines(s) <= n
    ensures LastLines(n, s, s)
  {
    assert End(s, |s|) == s;
  }

  // ---- reading ----

  /** How much tail asks for at least; the buffer always has that much room. */
  const BUFSIZ := 8192

  /** Input that cannot be sought. The k-th read gives at most chunk(k) bytes; none means the end or an error. */
  class Input {
    const data: seq<Byte>
    const chunk: nat -> nat
    var pos: nat
    var count: nat

    constructor (data: seq<Byte>, chunk: nat -> nat)
      ensures this.data == data && this.chunk == chunk && pos == 0 && count == 0
    {
      this.data, this.chunk, pos, count := data, chunk, 0, 0;
    }

    /** All has been read, or a read has failed. */
    ghost predicate Ended()
      reads this
    {
      pos == |data| || exists k: nat :: k < count && chunk(k) == 0
    }

    /** How much the k-th read gives when size bytes are asked for at position p. */
    function Given(k: nat, p: nat, size: nat): (n: nat)
      requires p <= |data|
      ensures n <= size && p + n <= |data|
    {
      var n := if chunk(k) < size then chunk(k) else size;
      if n < |data| - p then n else |data| - p
    }

    /** tail_read into buf from index at on. Asking for nothing would look like the end of the input. */
    method Read(buf: array<Byte>, at: nat, size: nat) returns (n: nat)
      requires pos <= |data| && at + size <= buf.Length && size > 0
      modifies this, buf
      ensures n == Given(old(count), old(pos), size) && pos == old(pos) + n <= |data| && count == old(count) + 1
      ensures buf[..at] == old(buf[..at]) && buf[at..at + n] == data[old(pos)..pos]
      ensures n == 0 ==> Ended()
    {
      n := Given(count, pos, size);
      var k := 0;
      while k < n
        invariant 0 <= k <= n && pos == old(pos) && count == old(count)
        invariant buf[..at] == old(buf[..at]) && buf[at..at + k] == data[pos..pos + k]
      {
        buf[at + k] := data[pos + k];
        assert buf[at..at + (k + 1)] == buf[at..at + k] + [data[pos + k]];
        k := k + 1;
      }
      assert n == 0 ==> chunk(count) == 0 || pos == |data|;
      pos, count := pos + n, count + 1;
    }
  }

  /** memmove(tailbuf, tailbuf + from, n) */
  method MoveDown(buf: array<Byte>, from: nat, n: nat)
    requires from + n <= buf.Length
    modifies buf
    ensures buf[..n] == old(buf[from..from + n])
  {
    var k := 0;
    while k < n
      invariant 0 <= k <= n
      invariant forall j :: 0 <= j < k ==> buf[j] == old(buf[from + j])
      invariant forall j :: k <= j < buf.Length ==> buf[j] == old(buf[j])
    {
      buf[k] := buf[from + k];
      k := k + 1;
    }
  }

  /** xrealloc */
  method Grow(buf: array<Byte>, len: nat, size: nat) returns (r: array<Byte>)
    requires len <= buf.Length && len <= size
    ensures fresh(r) && r.Length == size && r[..len] == buf[..len]
  {
    r := new Byte[size](i => 0);
    var k := 0;
    while k < len
      invariant 0 <= k <= len && r[..k] == buf[..k]
    {
      r[k] := buf[k];
      k := k + 1;
    }
  }

  // ---- the limits of int ----

  /** taillen is an int: from the k-th read on, at position p and with a buffer of that size, what is kept and what is
      read never exceed INT_MAX together. keep(p) is how much is kept of the first p bytes. */
  ghost predicate Fits(src: Input, keep: nat -> nat, k: nat, p: nat, size: nat)
    requires p <= |src.data|
    decreases |src.data| - p
  {
    && keep(p) < size
    && var n := src.Given(k, p, size - keep(p));
       n == 0 || (keep(p) + n <= INT_MAX && Fits(src, keep, k + 1, p + n, Larger(size, keep(p + n) + BUFSIZ)))
  }

  /** Whether everything fits is decided by what is still to come. */
  ghost predicate Ahead(src: Input, keep: nat -> nat, size0: nat, k: nat, p: nat, size: nat)
    requires p <= |src.data|
  {
    Fits(src, keep, 0, 0, size0) <==> Fits(src, keep, k, p, size)
  }

  lemma AheadStart(src: Input, keep: nat -> nat, size: nat)
    ensures Ahead(src, keep, size, 0, 0, size)
  {
  }

  /** One read. */
  lemma FitsNext(src: Input, keep: nat -> nat, size0: nat, k: nat, p: nat, size: nat, n: nat)
    requires p <= |src.data| && keep(p) < size && Ahead(src, keep, size0, k, p, size) && n == src.Given(k, p, size - keep(p))
    ensures n == 0 ==> Fits(src, keep, 0, 0, size0)
    ensures n > 0 && keep(p) + n > INT_MAX ==> !Fits(src, keep, 0, 0, size0)
    ensures n > 0 && keep(p) + n <= INT_MAX ==> Ahead(src, keep, size0, k + 1, p + n, Larger(size, keep(p + n) + BUFSIZ))
  {
  }

  function Larger(a: nat, b: nat): (c: nat)
    ensures c == a || c == b
    ensures c >= a && c >= b
  {
    if a < b then b else a
  }

  /** A short input always fits. */
  lemma {:induction false} ShortFits(src: Input, keep: nat -> nat, k: nat, p: nat, size: nat)
    requires p <= |src.data| <= INT_MAX && (forall q :: 0 <= q <= |src.data| ==> keep(q) <= q) && keep(p) < size
    ensures Fits(src, keep, k, p, size)
    decreases |src.data| - p
  {
    var n := src.Given(k, p, size - keep(p));
    if n > 0 {
      assert keep(p) <= p;
      ShortFits(src, keep, k + 1, p + n, Larger(size, keep(p + n) + BUFSIZ));
    }
  }

  // ---- keeping lines ----

  /** The newlines of the last read, counted from its end. */
  method CountNewlines(buf: array<Byte>, from: nat, nread: nat) returns (n: nat)
    requires from + nread <= buf.Length
    ensures n == Newlines(buf[from..from + nread])
  {
    var k := nread;
    n := 0;
    ghost var s := buf[from..from + nread];
    assert s[..k] == s;
    while k > 0
      invariant 0 <= k <= nread && n + Newlines(s[..k]) == Newlines(s)
    {
      assert s[..k][..k - 1] == s[..k - 1];
      k := k - 1;
      if buf[from + k] == NL {
        n := n + 1;
      }
    }
  }

  lemma InsideStill(s: seq<Byte>, at: nat)
    requires at <= |s|
    ensures Newlines(s[..at]) < Newlines(s) ==> at < |s|
  {
    assert s[..|s|] == s;
  }

  /** Skips k newlines; it stays within the first len bytes. */
  method Skip(buf: array<Byte>, len: nat, k0: nat) returns (at: nat)
    requires len <= buf.Length && k0 <= Newlines(buf[..len])
    ensures at <= len && Newlines(buf[..len][..at]) == k0 && (at == 0 || buf[..len][at - 1] == NL)
  {
    var k := k0;
    at := 0;
    ghost var s := buf[..len];
    while k > 0
      invariant 0 <= at <= |s| && 0 <= k && Newlines(s[..at]) + k == k0
      invariant at == 0 || s[at - 1] == NL || k > 0
      decreases |s| - at
    {
      InsideStill(s, at);
      assert s[..at + 1][..at] == s[..at];
      if buf[at] == NL {
        k := k - 1;
      }
      at := at + 1;
    }
  }

  /** What one read of `more` bytes in line mode leaves of what was kept. */
  lemma LinesKept(count: nat, data: seq<Byte>, kept: seq<Byte>, more: seq<Byte>, at: nat)
    requires count >= 1 && more != [] && LastLines(count, data, kept) && at <= |kept + more|
    requires Newlines(kept) + Newlines(more) < count ==> at == 0
    requires Newlines(kept) + Newlines(more) >= count ==>
               var k := Newlines(kept) + Newlines(more) + (if Unfinished(more) then 1 else 0) - count;
               Newlines((kept + more)[..at]) == k && (at == 0 || (kept + more)[at - 1] == NL)
    ensures LastLines(count, data + more, (kept + more)[at..])
    ensures Newlines((kept + more)[at..])
         == if Newlines(kept) + Newlines(more) < count then Newlines(kept) + Newlines(more)
            else count - (if Unfinished(more) then 1 else 0)
  {
    hide LastLines, Newlines, Unfinished;
    var all := kept + more;
    NewlinesAppend(kept, more);
    SameEnd(kept, more);
    if Newlines(all) < count {
      assert all[0..] == all;
      AllKept(count, all);
    } else {
      DropLines(count, all, at);
      assert all == all[..at] + all[at..];
      NewlinesAppend(all[..at], all[at..]);
    }
    KeepMore(count, data, kept, more, all[at..]);
  }

  lemma SameEnd(kept: seq<Byte>, more: seq<Byte>)
    requires more != []
    ensures Unfinished(kept + more) == Unfinished(more)
  {
  }

  /** One read in line mode. */
  method KeepLines(buf: array<Byte>, taillen: nat, nread: nat, newlinesSeen: nat, count: nat, ghost data: seq<Byte>)
      returns (taillen': nat, newlinesSeen': nat)
    requires 1 <= count <= INT_MAX && nread > 0 && taillen + nread <= buf.Length
    requires newlinesSeen == Newlines(buf[..taillen]) && LastLines(count, data, buf[..taillen])
    modifies buf
    ensures taillen' <= buf.Length && newlinesSeen' == Newlines(buf[..taillen'])
    ensures LastLines(count, data + old(buf[taillen..taillen + nread]), buf[..taillen'])
  {
    hide LastLines, Newlines;
    ghost var kept, more := buf[..taillen], buf[taillen..taillen + nread];
    var newlinesInBuf := CountNewlines(buf, taillen, nread);
    assert buf[..taillen + nread] == kept + more && more[|more| - 1] == buf[taillen + nread - 1];
    NewlinesAppend(kept, more);
    if newlinesSeen + newlinesInBuf < count {
      LinesKept(count, data, kept, more, 0);
      assert (kept + more)[0..] == kept + more;
      return taillen + nread, newlinesSeen + newlinesInBuf;
    }
    var extra := if buf[taillen + nread - 1] != NL then 1 else 0;
    EnoughNewlines(count, kept, more, extra);
    var at := Skip(buf, taillen + nread, newlinesSeen + newlinesInBuf + extra - count);
    LinesKept(count, data, kept, more, at);
    taillen' := taillen + nread - at;
    assert buf[at..at + taillen'] == (kept + more)[at..];
    MoveDown(buf, at, taillen');
    newlinesSeen' := count - extra;
  }

  lemma EnoughNewlines(count: nat, kept: seq<Byte>, more: seq<Byte>, extra: nat)
    requires count >= 1 && extra <= 1 && Newlines(kept) + Newlines(more) >= count
    ensures Newlines(kept + more) == Newlines(kept) + Newlines(more)
    ensures 0 <= Newlines(kept) + Newlines(more) + extra - count <= Newlines(kept + more)
  {
    NewlinesAppend(kept, more);
  }

  /** How many bytes the last count lines are. */
  ghost function LinesLength(count: nat, data: seq<Byte>): (k: nat)
  {
    if k: nat :| LongestEnd(count, data, k) then k else 0
  }

  ghost function KeptLines(src: Input, count: nat): (keep: nat -> nat)
  {
    (p: nat) => if p <= |src.data| then LinesLength(count, src.data[..p]) else 0
  }

  lemma KeepsLines(src: Input, count: nat, p: nat, s: seq<Byte>)
    requires p <= |src.data| && LastLines(count, src.data[..p], s)
    ensures KeptLines(src, count)(p) == |s|
  {
    LinesLengthIs(count, src.data[..p], s);
  }

  lemma LinesLengthIs(count: nat, data: seq<Byte>, s: seq<Byte>)
    requires LastLines(count, data, s)
    ensures LinesLength(count, data) == |s|
  {
    hide Lines, End;
  }

  /** tail -n N on input that cannot be sought: the last N lines, for any way the input comes in, if and only if N is
      an int (or there is no input) and what is kept and read never exceeds INT_MAX bytes. Otherwise the counters
      overflow and the result is false. The buffer always has room for another BUFSIZ bytes, so that no read asks for
      nothing. */
  method TailLines(src: Input, count: nat) returns (ok: bool, written: seq<Byte>)
    requires src.pos == 0 && src.count == 0 && count < TWO32
    modifies src
    ensures src.pos <= |src.data| && (ok ==> src.Ended() && LastLines(count, src.data[..src.pos], written))
    ensures count > INT_MAX ==> (ok <==> src.Given(0, 0, BUFSIZ) == 0)
    ensures count <= INT_MAX ==> (ok <==> Fits(src, KeptLines(src, count), 0, 0, BUFSIZ))
  {
    hide LastLines, Newlines, Fits, KeptLines, Ahead, Input.Given;
    var tailbufsize := BUFSIZ;
    var tailbuf := new Byte[tailbufsize](i => 0);
    var taillen: nat, newlinesSeen: nat := 0, 0;
    ghost var keep := KeptLines(src, count);
    NoNewlines();
    AllKept(count, []);
    assert src.data[..0] == [] && tailbuf[..0] == [];
    KeepsLines(src, count, 0, []);
    AheadStart(src, keep, BUFSIZ);
    while true
      invariant fresh(tailbuf) && tailbuf.Length == tailbufsize >= taillen + BUFSIZ && src.pos <= |src.data|
      invariant count == 0 ==> taillen == 0
      invariant count > 0 ==> newlinesSeen == Newlines(tailbuf[..taillen]) && LastLines(count, src.data[..src.pos], tailbuf[..taillen])
      invariant count > INT_MAX ==> src.pos == 0 && src.count == 0 && taillen == 0 && tailbufsize == BUFSIZ
      invariant count <= INT_MAX ==> taillen == keep(src.pos) && Ahead(src, keep, BUFSIZ, src.count, src.pos, tailbufsize)
      decreases |src.data| - src.pos
    {
      ghost var data, k, p := src.data[..src.pos], src.count, src.pos;
      var nread := src.Read(tailbuf, taillen, tailbufsize - taillen);
      if count <= INT_MAX {
        FitsNext(src, keep, BUFSIZ, k, p, tailbufsize, nread);
      }
      assert src.data[..src.pos] == data + tailbuf[taillen..taillen + nread];
      if nread == 0 {
        assert src.data[..src.pos] == data;
        break;
      }
      if count > INT_MAX || taillen + nread > INT_MAX {
        return false, [];
      }
      if count != 0 {
        taillen, newlinesSeen := KeepLines(tailbuf, taillen, nread, newlinesSeen, count, data);
        if tailbufsize < taillen + BUFSIZ {
          tailbufsize := taillen + BUFSIZ;
          tailbuf := Grow(tailbuf, taillen, tailbufsize);
        }
        KeepsLines(src, count, src.pos, tailbuf[..taillen]);
      } else {
        NoLines(src.data[..src.pos]);
        KeepsLines(src, 0, src.pos, []);
      }
    }
    ok, written := true, tailbuf[..taillen];
    if count == 0 {
      NoLines(src.data[..src.pos]);
    }
  }

  /** With an int for N, up to INT_MAX bytes of input are enough. */
  lemma ShortLinesFit(src: Input, count: nat)
    requires |src.data| <= INT_MAX
    ensures Fits(src, KeptLines(src, count), 0, 0, BUFSIZ)
  {
    hide Fits, Lines, End;
    var keep := KeptLines(src, count);
    assert LinesLength(count, src.data[..0]) == 0;
    ShortFits(src, keep, 0, 0, BUFSIZ);
  }

  lemma NoLines(data: seq<Byte>)
    ensures LastLines(0, data, [])
  {
    forall k | 0 < k <= |data| ensures Lines(End(data, k)) > 0 {
      var s := End(data, k);
      if !Unfinished(s) {
        LastNewline(s);
      }
    }
  }

  /** The last n bytes, or all there are. */
  function LastBytes(n: nat, data: seq<Byte>): (s: seq<Byte>)
  {
    if |data| <= n then data else data[|data| - n..]
  }

  lemma LastBytesMore(n: nat, data: seq<Byte>, more: seq<Byte>)
    ensures LastBytes(n, LastBytes(n, data) + more) == LastBytes(n, data + more)
  {
  }

  function KeptBytes(count: nat): (keep: nat -> nat)
  {
    (p: nat) => if p <= count then p else count
  }

  /** The size of the buffer; the sum is taken modulo 2^32. */
  function BytesSize(count: nat): (size: nat)
    ensures size >= BUFSIZ && (count <= INT_MAX ==> size == count + BUFSIZ)
  {
    Larger(BUFSIZ, (count + BUFSIZ) % TWO32)
  }

  /** tail -c N for any 32-bit N: the last N bytes, for any way the input comes in, if and only if N is an int (or there
      is no input) and what is kept and read never exceeds INT_MAX bytes; with N up to INT_MAX - BUFSIZ that is always
      so. Otherwise bytes outside the buffer would be moved and the result is false. */
  method TailBytes(src: Input, count: nat) returns (ok: bool, written: seq<Byte>)
    requires src.pos == 0 && src.count == 0 && count < TWO32
    modifies src
    ensures src.pos <= |src.data| && (ok ==> src.Ended() && written == LastBytes(count, src.data[..src.pos]))
    ensures count <= INT_MAX - BUFSIZ ==> ok
    ensures count <= INT_MAX ==> (ok <==> Fits(src, KeptBytes(count), 0, 0, count + BUFSIZ))
    ensures count > INT_MAX ==> (ok <==> src.Given(0, 0, BUFSIZ) == 0)
  {
    LastBytesShort(count);
    hide LastBytes, Fits, KeptBytes, Input.Given, Ahead, BytesSize, Larger;
    var tailbufsize := BytesSize(count);
    var tailbuf := new Byte[tailbufsize](i => 0);
    var taillen: nat := 0;
    ghost var keep := KeptBytes(count);
    if count <= INT_MAX - BUFSIZ {
      BytesFit(src, count, 0, 0);
    }
    NothingGiven(src, tailbufsize);
    AheadStart(src, keep, tailbufsize);
    while true
      invariant tailbuf.Length == tailbufsize >= taillen + BUFSIZ && taillen <= count && src.pos <= |src.data| && fresh(tailbuf)
      invariant tailbuf[..taillen] == LastBytes(count, src.data[..src.pos])
      invariant count > INT_MAX ==> src.pos == 0 && src.count == 0 && taillen == 0
      invariant count <= INT_MAX ==> taillen == keep(src.pos) && tailbufsize == count + BUFSIZ
      invariant count <= INT_MAX ==> Ahead(src, keep, tailbufsize, src.count, src.pos, tailbufsize)
      decreases |src.data| - src.pos
    {
      ghost var data, k, p := src.data[..src.pos], src.count, src.pos;
      var nread := src.Read(tailbuf, taillen, tailbufsize - taillen);
      if count <= INT_MAX {
        FitsNext(src, keep, tailbufsize, k, p, tailbufsize, nread);
      }
      assert src.data[..src.pos] == data + tailbuf[taillen..taillen + nread];
      if nread == 0 {
        assert src.data[..src.pos] == data;
        break;
      }
      if count > INT_MAX || taillen + nread > INT_MAX {
        return false, [];
      }
      taillen := KeepBytes(tailbuf, taillen, nread, count, data);
    }
    ok, written := true, tailbuf[..taillen];
  }

  /** Whether there is any input does not depend on how much is asked for. */
  lemma NothingGiven(src: Input, size: nat)
    requires size > 0
    ensures src.Given(0, 0, size) == 0 <==> src.Given(0, 0, BUFSIZ) == 0
  {
  }

  /** One read in byte mode. */
  method KeepBytes(buf: array<Byte>, taillen: nat, nread: nat, count: nat, ghost data: seq<Byte>) returns (taillen': nat)
    requires taillen + nread <= buf.Length && taillen <= count && buf[..taillen] == LastBytes(count, data)
    modifies buf
    ensures taillen' <= taillen + nread && taillen' <= count && taillen' == KeptBytes(count)(|data| + nread)
    ensures buf[..taillen'] == LastBytes(count, data + old(buf[taillen..taillen + nread]))
  {
    ghost var kept, more := buf[..taillen], buf[taillen..taillen + nread];
    assert buf[..taillen + nread] == kept + more;
    LastBytesMore(count, data, more);
    BytesKept(count, kept + more);
    LastBytesLength(count, data + more);
    hide LastBytes;
    taillen' := taillen;
    if count != 0 {
      taillen' := taillen + nread;
      if taillen' > count {
        MoveDown(buf, taillen' - count, count);
        taillen' := count;
      }
    }
  }

  lemma LastBytesLength(count: nat, data: seq<Byte>)
    ensures |LastBytes(count, data)| == KeptBytes(count)(|data|)
  {
  }

  /** With room for another read everything always fits. */
  lemma {:induction false} BytesFit(src: Input, count: nat, k: nat, p: nat)
    requires p <= |src.data| && count <= INT_MAX - BUFSIZ
    ensures Fits(src, KeptBytes(count), k, p, count + BUFSIZ)
    decreases |src.data| - p
  {
    var keep := KeptBytes(count);
    var n := src.Given(k, p, count + BUFSIZ - keep(p));
    if n > 0 {
      BytesFit(src, count, k + 1, p + n);
    }
  }

  lemma LastBytesShort(count: nat)
    ensures LastBytes(count, []) == [] && KeptBytes(count)(0) == 0
  {
  }

  lemma BytesKept(count: nat, s: seq<Byte>)
    ensures LastBytes(count, s) == if |s| <= count then s else s[|s| - count..|s| - count + count]
    ensures count == 0 ==> LastBytes(count, s) == []
  {
  }

  // ---- starting from the top ----

  /** Everything from line n on; lines are counted from 1. */
  function FromLine(n: nat, data: seq<Byte>): (s: seq<Byte>)
    decreases |data|
  {
    if n <= 1 || data == [] then data
    else FromLine(if data[0] == NL then n - 1 else n, data[1..])
  }

  lemma {:induction false} FromLineEnd(n: nat, a: seq<Byte>)
    ensures n >= 1 && Newlines(a) < n - 1 ==> FromLine(n, a) == []
    decreases |a|
  {
    if n > 1 && a != [] {
      NewlinesHead(a);
      FromLineEnd(if a[0] == NL then n - 1 else n, a[1..]);
    }
  }

  lemma NewlinesHead(a: seq<Byte>)
    requires a != []
    ensures Newlines(a) == (if a[0] == NL then 1 else 0) + Newlines(a[1..])
  {
    assert a == [a[0]] + a[1..];
    NewlinesAppend([a[0]], a[1..]);
    OneByteNewlines(a[0]);
  }

  /** Input in two pieces: the second is passed on whole if the line has started in the first. */
  lemma {:induction false} FromLineAppend(n: nat, a: seq<Byte>, b: seq<Byte>)
    requires n >= 1
    ensures FromLine(n, a + b) == if Newlines(a) >= n - 1 then FromLine(n, a) + b else FromLine(n - Newlines(a), b)
    decreases |a|
  {
    if a == [] {
      assert a + b == b;
    } else if n > 1 {
      NewlinesHead(a);
      assert (a + b)[1..] == a[1..] + b;
      FromLineAppend(if a[0] == NL then n - 1 else n, a[1..], b);
    }
  }

  /** One read while lines are still to be skipped. */
  method SkipLines(seen0: nat, buf: seq<Byte>, count: nat) returns (seen: nat, nwrite: nat)
    requires 1 <= seen0 < count && buf != []
    ensures nwrite <= |buf| && buf[|buf| - nwrite..] == FromLine(count - seen0 + 1, buf)
    ensures seen == if seen0 + Newlines(buf) < count then seen0 + Newlines(buf) else count
  {
    seen, nwrite := seen0, |buf|;
    assert buf[..0] == [] && buf[0..] == buf;
    while nwrite > 0
      invariant 0 <= nwrite <= |buf| && seen == seen0 + Newlines(buf[..|buf| - nwrite]) < count
      invariant FromLine(count - seen0 + 1, buf) == FromLine(count - seen + 1, buf[|buf| - nwrite..])
    {
      var k := |buf| - nwrite;
      assert buf[k..][1..] == buf[k + 1..] && buf[..k + 1][..k] == buf[..k];
      nwrite := nwrite - 1;
      if buf[k] == NL {
        seen := seen + 1;
        if seen == count {
          assert buf == buf[..k + 1] + buf[k + 1..];
          NewlinesAppend(buf[..k + 1], buf[k + 1..]);
          return;
        }
      }
    }
    assert buf[..|buf|] == buf;
  }

  /** tail -n +N: everything from line N on. */
  method TailFromLine(src: Input, count: nat) returns (written: seq<Byte>)
    requires src.pos == 0
    modifies src
    ensures src.pos <= |src.data| && src.Ended() && written == FromLine(count, src.data[..src.pos])
  {
    hide Newlines, FromLine;
    written := [];
    var tailbuf := new Byte[BUFSIZ](i => 0);
    var seen := 1;
    NoNewlines();
    NothingFrom(count);
    assert src.data[..0] == [];
    while true
      invariant src.pos <= |src.data| && fresh(tailbuf) && tailbuf.Length == BUFSIZ
      invariant written == FromLine(count, src.data[..src.pos])
      invariant seen == if count <= 1 then 1
                        else if Newlines(src.data[..src.pos]) + 1 < count then Newlines(src.data[..src.pos]) + 1 else count
      decreases |src.data| - src.pos
    {
      ghost var was := src.data[..src.pos];
      var nread := src.Read(tailbuf, 0, BUFSIZ);
      var buf := tailbuf[..nread];
      assert src.data[..src.pos] == was + buf;
      if nread == 0 {
        assert src.data[..src.pos] == was;
        return;
      }
      var nwrite := nread;
      NewlinesAppend(was, buf);
      FromLineMore(count, was, buf);
      if seen < count {
        seen, nwrite := SkipLines(seen, buf, count);
      }
      assert nwrite == nread ==> buf[nread - nwrite..] == buf;
      written := written + buf[nread - nwrite..];
    }
  }

  lemma NothingFrom(count: nat)
    ensures FromLine(count, []) == []
  {
  }

  /** How the next piece of input is passed on. */
  lemma FromLineMore(count: nat, was: seq<Byte>, buf: seq<Byte>)
    ensures count <= 1 ==> FromLine(count, was + buf) == FromLine(count, was) + buf
    ensures count > 1 && Newlines(was) + 1 >= count ==> FromLine(count, was + buf) == FromLine(count, was) + buf
    ensures count > 1 && Newlines(was) + 1 < count ==>
              FromLine(count, was) == [] && FromLine(count, was + buf) == FromLine(count - Newlines(was), buf)
  {
    if count >= 1 {
      FromLineAppend(count, was, buf);
      FromLineEnd(count, was);
    }
  }

  /** The low 32 bits as a signed number. */
  function Int32(x: int): (r: int)
  {
    var u := x % TWO32;
    if u <= INT_MAX then u else u - TWO32
  }

  /** How much of a read is left to write; the subtraction is unsigned and its result is taken as signed. */
  function NWrite(nread: nat, count: nat, seen: nat): (r: int)
    requires seen <= count
  {
    Int32(nread - (count - seen))
  }

  /** It is right as long as no more than 2^31 bytes are still to be skipped after the read; beyond that
      more would be written than has been read. */
  lemma NWriteExact(nread: nat, count: nat, seen: nat)
    requires 0 < nread <= INT_MAX && 1 <= seen <= count < TWO32
    ensures NWrite(nread, count, seen) == nread - (count - seen) <==> count - seen - nread <= INT_MAX + 1
    ensures count - seen - nread > INT_MAX + 1 ==> NWrite(nread, count, seen) > nread
  {
  }

  /** tail -c +3000000000 goes wrong at the first byte. */
  lemma NWriteFails()
    ensures NWrite(1, 3000000000, 1) == 1294967298
  {
  }

  function FromByte(n: nat, data: seq<Byte>): (s: seq<Byte>)
  {
    if n <= 1 then data else if n - 1 <= |data| then data[n - 1..] else []
  }

  lemma FromByteMore(n: nat, was: seq<Byte>, buf: seq<Byte>)
    ensures n <= 1 + |was| ==> FromByte(n, was + buf) == FromByte(n, was) + buf
    ensures 1 + |was| < n ==> FromByte(n, was) == []
    ensures 1 + |was| < n ==> FromByte(n, was + buf) == if n - 1 - |was| <= |buf| then buf[n - 1 - |was|..] else []
  {
  }

  /** tail -c +N for any 32-bit N: everything from byte N on if and only if there is no input or at most
      2^31 bytes are still to be skipped after the first read. Otherwise more would be written than was
      read, from in front of the buffer; the result is then false. */
  method TailFromByte(src: Input, count: nat) returns (ok: bool, written: seq<Byte>)
    requires src.pos == 0 && src.count == 0 && count < TWO32
    modifies src
    ensures src.pos <= |src.data|
    ensures ok <==> src.Given(0, 0, BUFSIZ) == 0 || count - 1 - src.Given(0, 0, BUFSIZ) <= INT_MAX + 1
    ensures ok ==> src.Ended() && written == FromByte(count, src.data[..src.pos])
  {
    written := [];
    var tailbuf := new Byte[BUFSIZ](i => 0);
    var seen := 1;
    ghost var first := src.Given(0, 0, BUFSIZ);
    assert src.data[..0] == [];
    while true
      invariant src.pos <= |src.data| && fresh(tailbuf) && tailbuf.Length == BUFSIZ
      invariant written == FromByte(count, src.data[..src.pos])
      invariant 1 <= seen && (seen < count ==> seen == 1 + src.pos) && (seen >= count ==> count <= 1 + src.pos)
      invariant if src.pos == 0 then src.count == 0 && seen == 1 else first > 0 && count - 1 - first <= INT_MAX + 1 && first <= src.pos
      decreases |src.data| - src.pos
    {
      ghost var was := src.data[..src.pos];
      var nread := src.Read(tailbuf, 0, BUFSIZ);
      var buf := tailbuf[..nread];
      assert src.data[..src.pos] == was + buf;
      FromByteMore(count, was, buf);
      if nread == 0 {
        assert src.data[..src.pos] == was;
        return true, written;
      }
      var nwrite: int := nread;
      if seen < count {
        NWriteExact(nread, count, seen);
        nwrite := NWrite(nread, count, seen);
        seen := (seen + nread) % TWO32;
      }
      if nwrite > nread {
        return false, written;
      }
      if nwrite > 0 {
        written := written + buf[nread - nwrite..];
      }
    }
  }
}
