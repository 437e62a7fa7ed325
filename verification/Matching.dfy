/** The sliding window and the match search: fill_window, INSERT_STRING, longest_match and lm_init. */
module Matching {
  import opened Bits
  import opened Hash
  import opened Chains
  import opened WindowEnd
  import opened Inflate

  /** A checksum taken one byte at a time. */
  function Checksum(step: (nat, Byte) -> nat, crc: nat, s: seq<Byte>): (r: nat)
    requires crc < TWO32
    ensures r < TWO32
  {
    if s == [] then crc else step(Checksum(step, crc, s[..|s| - 1]), s[|s| - 1]) % TWO32
  }

  lemma {:induction false} ChecksumAppend(step: (nat, Byte) -> nat, crc: nat, a: seq<Byte>, b: seq<Byte>)
    requires crc < TWO32
    ensures Checksum(step, crc, a + b) == Checksum(step, Checksum(step, crc, a), b)
  {
    if b == [] {
      assert a + b == a;
    } else {
      assert (a + b)[..|a + b| - 1] == a + b[..|b| - 1];
      ChecksumAppend(step, crc, a, b[..|b| - 1]);
    }
  }

  /** The input file. The k-th read may return any number of bytes up to chunk(k); none means
      the end of the file or an error. */
  class Source {
    const data: seq<Byte>
    const chunk: nat -> nat
    const step: (nat, Byte) -> nat
    var pos: nat
    var count: nat
    var crc: nat
    var isize: nat

    constructor (data: seq<Byte>, chunk: nat -> nat, step: (nat, Byte) -> nat)
      ensures this.data == data && this.chunk == chunk && this.step == step && pos == 0 && Ok()
    {
      this.data, this.chunk, this.step := data, chunk, step;
      pos, count, crc, isize := 0, 0, TWO32 - 1, 0;
    }

    /** crc and isize describe what has been read. */
    ghost predicate Ok()
      reads this
    {
      pos <= |data| && isize == pos && crc == Checksum(step, TWO32 - 1, data[..pos])
    }

    /** All input has been read, or a read has failed. */
    ghost predicate Ended()
      reads this
    {
      pos == |data| || exists k: nat :: k < count && chunk(k) == 0
    }

    /** Every read returns all that was asked for, up to the end of the file. */
    ghost predicate Plenty()
    {
      forall k :: chunk(k) >= WINDOW_SIZE
    }

    /** Where the input stands after a read of the given size at pos that returns all it can. */
    ghost function After(pos: nat, size: nat): (p: nat)
    {
      if pos + size <= |data| then pos + size else |data|
    }

    /** file_read */
    method Read(size: nat) returns (got: seq<Byte>)
      requires Ok()
      modifies this
      ensures Ok() && pos == old(pos) + |got| && got == data[old(pos)..pos] && |got| <= size
      ensures got == [] && size > 0 ==> Ended()
      ensures Plenty() && size <= WINDOW_SIZE ==> pos == After(old(pos), size)
    {
      hide Checksum;
      var n := chunk(count);
      if n > size {
        n := size;
      }
      if n > |data| - pos {
        n := |data| - pos;
      }
      got := data[pos..pos + n];
      assert n == 0 && size > 0 ==> chunk(count) == 0 || pos == |data|;
      count := count + 1;
      ChecksumAppend(step, TWO32 - 1, data[..pos], got);
      assert data[..pos] + got == data[..pos + n];
      crc := Checksum(step, crc, got);
      isize := isize + n;
      pos := pos + n;
    }
  }

  /** The search heuristics; none of them matters for correctness. */
  datatype Config = Config(maxChain: nat, goodMatch: nat, niceMatch: nat, maxLazy: nat)

  const TOO_FAR := 4096

  /** A match of `len` bytes at a with the earlier position m. */
  ghost predicate IsMatch(input: seq<Byte>, a: nat, m: int, len: nat)
  {
    && MIN_MATCH <= len <= MAX_MATCH && a + len <= |input|
    && 0 <= m < a <= m + MAX_DIST
    && Repeats(input, a, a - m, len)
  }

  /** The first n bytes are the data from base on. */
  ghost predicate Shows(w: seq<Byte>, data: seq<Byte>, base: nat, n: nat)
  {
    n <= |w| && base + n <= |data| && forall i :: 0 <= i < n ==> w[i] == data[base + i]
  }

  /** From its first zero byte on the input is zero, and so is the window, whether it holds input or not. */
  ghost predicate ZeroTail(w: seq<Byte>, data: seq<Byte>, base: nat)
  {
    var z := FirstZero(data);
    && z <= WSIZE && |w| >= WINDOW_SIZE
    && (forall i :: z <= i < |data| ==> data[i] == 0)
    && (forall i :: 0 <= i < WINDOW_SIZE && base + i >= z ==> w[i] == 0)
  }

  /** No more than len bytes at s are those at m, as far as matches go. */
  ghost predicate NoLonger(w: seq<Byte>, s: nat, m: nat, len: nat)
    requires m <= s
  {
    forall n :: 0 <= n <= MAX_MATCH && SameFor(w, s, m, n) ==> n <= len
  }

  /** The n bytes at s are those at m. */
  ghost predicate SameFor(w: seq<Byte>, s: nat, m: nat, n: nat)
    requires m <= s
  {
    Repeats(w, s, s - m, n)
  }

  ghost predicate Best(w: seq<Byte>, s: nat, tried: seq<nat>, len: nat)
  {
    forall i :: 0 <= i < |tried| ==> tried[i] <= s && NoLonger(w, s, tried[i], len)
  }

  /** Of the strings tried none repeats for longer than len, as far as the lookahead goes; the shortest matches do not count. */
  ghost predicate BestAhead(w: seq<Byte>, s: nat, lookahead: nat, tried: seq<nat>, len: nat)
  {
    forall i, n :: 0 <= i < |tried| && MIN_MATCH < n <= MAX_MATCH && n <= lookahead && tried[i] <= s && SameFor(w, s, tried[i], n) ==> n <= len
  }

  lemma BestCut(w: seq<Byte>, s: nat, lookahead: nat, tried: seq<nat>, found: nat, len: nat)
    requires Best(w, s, tried, found) && (len >= found || len >= lookahead || found <= MIN_MATCH || lookahead <= MIN_MATCH)
    ensures BestAhead(w, s, lookahead, tried, len)
  {
    hide SameFor;
  }

  /** A search has found a match as long as the latest string q with the same hash makes, if that is near enough. */
  ghost predicate FindsLatest(w: seq<Byte>, s: nat, lookahead: nat, q: nat, found: nat)
  {
    0 < q <= s <= q + MAX_DIST ==> BestAhead(w, s, lookahead, [q], found)
  }

  lemma BestMore(w: seq<Byte>, s: nat, tried: seq<nat>, len: nat, m: nat, len': nat)
    requires Best(w, s, tried, len) && len <= len' && m <= s && NoLonger(w, s, m, len')
    ensures Best(w, s, tried + [m], len')
  {
    hide Repeats;
  }

  /** How many strings of a chain are tried; fewer when the previous match is good. */
  function ChainLength(cfg: Config, prevLength: nat): (n: nat)
  {
    if prevLength >= cfg.goodMatch then cfg.maxChain / 4 else cfg.maxChain
  }

  /** The strings of the chain from cur on down to the limit, at most `chain` of them. */
  ghost function Visits(prev: seq<nat>, cur: nat, limit: nat, chain: nat): (v: seq<nat>)
    requires |prev| == WSIZE
    decreases cur
  {
    var q := prev[cur % WSIZE];
    [cur] + if q <= limit || q >= cur || (chain - 1) % TWO32 == 0 then [] else Visits(prev, q, limit, (chain - 1) % TWO32)
  }

  lemma VisitsIs(prev: seq<nat>, cur: nat, limit: nat, chain: nat, q: nat, chain': nat)
    requires |prev| == WSIZE && q == prev[cur % WSIZE] && chain' == (chain - 1) % TWO32
    ensures Visits(prev, cur, limit, chain) == [cur] + if q <= limit || q >= cur || chain' == 0 then [] else Visits(prev, q, limit, chain')
  {
  }

  /** The strings tried so far, and those still to come. */
  ghost predicate Trying(w: seq<Byte>, s: nat, prev: seq<nat>, limit: nat, tried: seq<nat>, cur: nat, chain: nat, all: seq<nat>, len: nat)
    requires |prev| == WSIZE
  {
    all == tried + Visits(prev, cur, limit, chain) && Best(w, s, tried, len)
  }

  lemma TryFirst(w: seq<Byte>, s: nat, prev: seq<nat>, limit: nat, cur: nat, chain: nat, len: nat)
    requires |prev| == WSIZE
    ensures Trying(w, s, prev, limit, [], cur, chain, Visits(prev, cur, limit, chain), len)
    ensures Visits(prev, cur, limit, chain) != [] && Visits(prev, cur, limit, chain)[0] == cur
  {
  }

  /** One more string has been tried. */
  lemma TryNext(w: seq<Byte>, s: nat, prev: seq<nat>, limit: nat, tried: seq<nat>, cur: nat, chain: nat, all: seq<nat>, len: nat, len': nat)
    requires |prev| == WSIZE && Trying(w, s, prev, limit, tried, cur, chain, all, len) && len <= len' && cur <= s && NoLonger(w, s, cur, len')
    requires tried == [] ==> all[0] == cur
    ensures var q, chain' := prev[cur % WSIZE], (chain - 1) % TWO32;
            && Best(w, s, tried + [cur], len') && (tried + [cur])[0] == all[0]
            && (q <= limit || chain' == 0 ==> all == tried + [cur])
            && (limit < q < cur && chain' != 0 ==> Trying(w, s, prev, limit, tried + [cur], q, chain', all, len'))
  {
    hide NoLonger, Best, Visits;
    var q, chain' := prev[cur % WSIZE], (chain - 1) % TWO32;
    BestMore(w, s, tried, len, cur, len');
    VisitsIs(prev, cur, limit, chain, q, chain');
    if limit < q < cur && chain' != 0 {
      assert tried + ([cur] + Visits(prev, q, limit, chain')) == (tried + [cur]) + Visits(prev, q, limit, chain');
    }
  }

  class Matcher {
    const src: Source
    // WINDOW_SIZE bytes, and behind them MAX_MATCH bytes of whatever memory follows: the search may look at those
    const window: array<Byte>
    const head: array<nat>
    const prev: array<nat>
    var strstart: nat
    var lookahead: nat
    var matchStart: int         // an unsigned 32-bit value in gzip.c, here any integer that it is modulo 2^32
    var blockStart: int
    var insH: nat
    var eofile: bool
    ghost var base: nat         // the input position of window[0]
    ghost var pastEnd: bool     // a byte past the window has been compared
    ghost var tooShort: bool    // the assertion of longest_match, that there is enough lookahead, has failed

    /** Everything read so far. */
    ghost function Input(): (s: seq<Byte>)
      reads src
      requires src.pos <= |src.data|
    {
      src.data[..src.pos]
    }

    ghost predicate Sized()
    {
      window.Length == WINDOW_SIZE + MAX_MATCH && head.Length == HASH_SIZE && prev.Length == WSIZE
    }

    /** The assertion fails and the search leaves the window only after the end of the input, and only
        if that found the window almost full. */
    ghost predicate Bounds()
      reads this`strstart, this`lookahead, this`base, this`eofile, this`pastEnd, this`tooShort
    {
      && base % WSIZE == 0
      && (eofile ==> strstart + lookahead <= WINDOW_SIZE - 2)
      && (pastEnd ==> eofile && strstart + lookahead > MAX_INSIDE)
      && (tooShort ==> eofile && strstart + lookahead > MAX_SAFE)
    }

    /** The window holds the input up to the end of the lookahead; what lies beyond is arbitrary. */
    ghost predicate WindowOk()
      reads this`strstart, this`lookahead, this`base, this`eofile, this`pastEnd, this`tooShort, src, window
    {
      && Bounds()
      && Sized() && src.Ok() && (eofile ==> src.Ended())
      && strstart + lookahead <= WINDOW_SIZE && base + strstart + lookahead == src.pos && (base > 0 ==> strstart > 0)
      && Shows(window[..], src.data, base, strstart + lookahead)
    }

    /** Positions below `next` are inserted in the hash chains. */
    ghost predicate Linked(next: nat)
      reads this`base, src, head, prev
    {
      && head.Length == HASH_SIZE && prev.Length == WSIZE && src.pos <= |src.data|
      && ChainsOk(head[..], prev[..], Input(), base, next)
    }

    /** The running hash is ready for position `next`. */
    ghost predicate HashReady(next: nat)
      reads this`insH, this`base, src
    {
      && insH < HASH_SIZE && src.pos <= |src.data|
      && (base + next + 2 <= src.pos ==> Primed(insH, src.data[base + next], src.data[base + next + 1]))
    }

    /** From its first zero byte on the input is zero, and so is the window. */
    ghost predicate Zeros()
      reads this`base, window
    {
      ZeroTail(window[..], src.data, base)
    }

    /** The last string inserted was one of the zeros. */
    ghost predicate ZeroRun(next: nat)
      reads this`base, this`insH, head
    {
      && 2 <= next && base + next > FirstZero(src.data)
      && insH == ZerosHash() && insH < head.Length && head[insH] == next - 1
    }

    /** Every read has returned all it could, and the end of the input is not reached with a slide to come. */
    ghost predicate Reads()
      reads this`base, src
    {
      && src.Plenty() && src.pos == src.After(base, WINDOW_SIZE)
      && (src.pos == |src.data| ==> base + Left(|src.data|) == |src.data|)
    }

    /** While more input may come, enough of it is at hand. */
    ghost predicate Valid()
      reads this, src, window, head, prev
    {
      && WindowOk() && Linked(strstart) && HashReady(strstart)
      && (!eofile ==> lookahead >= 2)
    }

    constructor (src: Source, window: array<Byte>)
      requires window.Length == WINDOW_SIZE + MAX_MATCH
      ensures this.src == src && this.window == window && Sized() && fresh(head) && fresh(prev)
      ensures strstart == lookahead == insH == base == 0 && matchStart == blockStart == 0 && !eofile && !pastEnd && !tooShort
    {
      this.src, this.window := src, window;
      head, prev := new nat[HASH_SIZE](i => 0), new nat[WSIZE](i => 0);
      strstart, lookahead, matchStart, blockStart, insH, eofile, base := 0, 0, 0, 0, 0, false, 0;
      pastEnd, tooShort := false, false;
    }

    // ---- the window ----

    /** Moves the upper half of the window to the lower one. */
    method MoveDown()
      requires Sized()
      modifies window
      ensures forall i :: 0 <= i < WSIZE ==> window[i] == old(window[i + WSIZE])
      ensures forall i :: WSIZE <= i < window.Length ==> window[i] == old(window[i])
    {
      var i := 0;
      while i < WSIZE
        invariant 0 <= i <= WSIZE
        invariant forall k :: 0 <= k < i ==> window[k] == old(window[k + WSIZE])
        invariant forall k :: WSIZE <= k < window.Length ==> window[k] == old(window[k])
      {
        window[i] := window[i + WSIZE];
        i := i + 1;
      }
    }

    /** The sliding branch of fill_window. */
    method Slide()
      requires WindowOk() && Linked(strstart) && strstart >= WSIZE + MAX_DIST && !eofile
      modifies this`strstart, this`matchStart, this`blockStart, this`base, window, head, prev
      ensures WindowOk() && Linked(strstart)
      ensures strstart == old(strstart) - WSIZE && base == old(base) + WSIZE
      ensures matchStart == old(matchStart) - WSIZE && blockStart == old(blockStart) - WSIZE
      ensures old(Zeros()) ==> Zeros()
      ensures old(ZeroRun(strstart)) ==> ZeroRun(strstart)
    {
      hide ChainsOk, ZerosHash, ZeroTail, Shows, Checksum;
      ghost var h0: seq<nat>, p0: seq<nat>, w0 := head[..], prev[..], window[..];
      MoveDown();
      WindowSlides(w0, window[..], src.data, base, strstart + lookahead);
      matchStart := matchStart - WSIZE;
      strstart := strstart - WSIZE;
      blockStart := blockStart - WSIZE;
      SlideAll(head);
      SlideAll(prev);
      SlideKeeps(h0, p0, Input(), base, strstart + WSIZE, head[..], prev[..]);
      base := base + WSIZE;
    }

    /** Appends what was read behind the lookahead. */
    method Append(got: seq<Byte>)
      requires Sized() && strstart + lookahead + |got| <= WINDOW_SIZE
      modifies window
      ensures forall i :: 0 <= i < strstart + lookahead ==> window[i] == old(window[i])
      ensures forall i :: 0 <= i < |got| ==> window[strstart + lookahead + i] == got[i]
      ensures forall i :: strstart + lookahead + |got| <= i < window.Length ==> window[i] == old(window[i])
    {
      var at, i := strstart + lookahead, 0;
      while i < |got|
        invariant 0 <= i <= |got|
        invariant forall k :: 0 <= k < at ==> window[k] == old(window[k])
        invariant forall k :: 0 <= k < i ==> window[at + k] == got[k]
        invariant forall k :: at + i <= k < window.Length ==> window[k] == old(window[k])
      {
        window[at + i] := got[i];
        i := i + 1;
      }
    }

    /** The reading part of fill_window: at least one byte is read, or eofile is set. */
    method ReadMore(more: nat)
      requires WindowOk() && Linked(strstart) && !eofile && strstart + lookahead + more <= WINDOW_SIZE && more >= 2
      requires strstart > 0 ==> lookahead >= 2
      modifies this`lookahead, this`eofile, window, src
      ensures WindowOk() && Linked(strstart)
      ensures src.pos >= old(src.pos) && lookahead >= old(lookahead)
      ensures if eofile then src.pos == old(src.pos) && lookahead == old(lookahead) else src.pos > old(src.pos)
      ensures src.Plenty() ==> src.pos == src.After(old(src.pos), more)
      ensures old(Zeros()) ==> Zeros()
    {
      hide ChainsOk, Checksum, ZeroTail, Shows, Source.After, Source.Plenty, Source.Ended;
      ghost var input, w0 := Input(), window[..];
      var got := src.Read(more);
      if got == [] {
        eofile := true;
      } else {
        Append(got);
        WindowGrows(w0, window[..], src.data, base, strstart + lookahead, got);
        MoreInputKeeps(head[..], prev[..], input, base, strstart, got);
        assert Input() == input + got;
        lookahead := lookahead + |got|;
      }
    }

    /** fill_window */
    method FillWindow()
      requires WindowOk() && Linked(strstart) && lookahead < MIN_LOOKAHEAD && !eofile
      requires strstart > 0 ==> lookahead >= 2
      modifies this`strstart, this`matchStart, this`blockStart, this`base, this`lookahead, this`eofile, window, head, prev, src
      ensures WindowOk() && Linked(strstart)
      ensures base + strstart == old(base + strstart) && base + matchStart == old(base + matchStart) && base + blockStart == old(base + blockStart)
      ensures src.pos >= old(src.pos) && lookahead >= old(lookahead) && (old(strstart) == 0 ==> strstart == 0)
      ensures !eofile ==> src.pos > old(src.pos)
      ensures base == old(base) + (if old(strstart) >= WSIZE + MAX_DIST then WSIZE else 0)
      ensures src.Plenty() ==> src.pos == src.After(base, WINDOW_SIZE)
      ensures old(Zeros()) ==> Zeros()
      ensures old(ZeroRun(strstart)) ==> ZeroRun(strstart)
    {
      hide ChainsOk, ZerosHash, ZeroTail, Matcher.ZeroRun;
      var more := WINDOW_SIZE - lookahead - strstart;
      if strstart >= WSIZE + MAX_DIST {
        Slide();
        more := more + WSIZE;
      }
      assert more >= 2;
      ReadMore(more);
    }

    /** fill_window_if_needed: enough lookahead, except at the end of the input. */
    method FillWindowIfNeeded()
      requires WindowOk() && Linked(strstart)
      requires !eofile && strstart > 0 ==> lookahead >= 2
      modifies this`strstart, this`matchStart, this`blockStart, this`base, this`lookahead, this`eofile, window, head, prev, src
      ensures WindowOk() && Linked(strstart)
      ensures base + strstart == old(base + strstart) && base + matchStart == old(base + matchStart) && base + blockStart == old(base + blockStart)
      ensures src.pos >= old(src.pos) && (old(strstart) == 0 ==> strstart == 0)
      ensures lookahead >= MIN_LOOKAHEAD || eofile
      ensures old(eofile) ==> src.pos == old(src.pos) && base == old(base) && eofile
      ensures old(Zeros()) ==> Zeros()
      ensures old(ZeroRun(strstart)) ==> ZeroRun(strstart)
      ensures old(Reads() && (src.pos == |src.data| && !eofile ==> strstart < WSIZE + MAX_DIST)) ==> Reads()
    {
      hide ChainsOk, ZerosHash, ZeroTail, Matcher.ZeroRun;
      while lookahead < MIN_LOOKAHEAD && !eofile
        invariant WindowOk() && Linked(strstart)
        invariant !eofile && strstart > 0 ==> lookahead >= 2
        invariant base + strstart == old(base + strstart) && base + matchStart == old(base + matchStart) && base + blockStart == old(base + blockStart)
        invariant src.pos >= old(src.pos) && (old(strstart) == 0 ==> strstart == 0)
        invariant old(eofile) ==> eofile && src.pos == old(src.pos) && base == old(base)
        invariant old(Zeros()) ==> Zeros()
        invariant old(ZeroRun(strstart)) ==> ZeroRun(strstart)
        invariant old(Reads() && (src.pos == |src.data| && !eofile ==> strstart < WSIZE + MAX_DIST)) ==>
                    Reads() && (src.pos == |src.data| && !eofile ==> strstart < WSIZE + MAX_DIST)
        decreases |src.data| - src.pos, if eofile then 0 else 1
      {
        FillWindow();
      }
    }

    /** INSERT_STRING at strstart */
    method InsertString() returns (hashHead: nat)
      requires WindowOk() && Linked(strstart) && HashReady(strstart) && lookahead > 0 && (!eofile ==> lookahead >= 3)
      modifies this`insH, head, prev
      ensures WindowOk() && Linked(strstart + 1) && HashReady(strstart + 1)
      ensures hashHead < strstart || hashHead == 0
      ensures hashHead != 0 && lookahead >= 3 ==> HashAt(Input(), base + hashHead) == HashAt(Input(), base + strstart)
      ensures strstart + MIN_MATCH - 1 < WINDOW_SIZE
      ensures hashHead == prev[strstart % WSIZE] && insH < HASH_SIZE && hashHead == old(head[..])[insH]
      ensures lookahead >= 3 ==> insH == HashAt(Input(), base + strstart)
      ensures Zeros() && old(ZeroRun(strstart)) ==> hashHead == strstart - 1
      ensures Zeros() && base + strstart >= FirstZero(src.data) && strstart > 0 && (lookahead >= 3 || old(ZeroRun(strstart))) ==> ZeroRun(strstart + 1)
    {
      hide HashAt, Primed, Update, ChainsOk, ZeroTail, Hash3, ZerosHash, Shows, Checksum, FirstZero;
      ghost var input := Input();
      var s := strstart;
      var z := window[s + MIN_MATCH - 1];
      ShownAt(window[..], src.data, base, s + lookahead, s + MIN_MATCH - 1);
      if base + s + 2 <= src.pos {
        PrimedNext(insH, src.data[base + s], src.data[base + s + 1], z);
      }
      ZeroInserted(window[..], src.data, input, base, s, insH, Update(insH, z));
      insH := Update(insH, z);
      assert base + s + 3 <= |input| ==> insH == HashAt(input, base + s) by { HashAtIs(input, base + s); }
      hashHead := Enter(insH);
    }

    /** Puts strstart at the head of its chain. */
    method Enter(h: nat) returns (hashHead: nat)
      requires Linked(strstart) && h < HASH_SIZE && (base + strstart + 3 <= src.pos ==> h == HashAt(Input(), base + strstart))
      modifies head, prev
      ensures Linked(strstart + 1) && (hashHead < strstart || hashHead == 0)
      ensures hashHead != 0 && base + strstart + 3 <= src.pos ==> HashAt(Input(), base + hashHead) == h
      ensures hashHead == old(head[h]) && head[..] == old(head[..])[h := strstart]
      ensures prev[..] == old(prev[..])[strstart % WSIZE := hashHead]
    {
      hide HashAt, ChainsOk;
      ghost var h0: seq<nat>, p0: seq<nat> := head[..], prev[..];
      HeadIs(h0, p0, Input(), base, strstart, h);
      hashHead := head[h];
      prev[strstart % WSIZE] := hashHead;
      head[h] := strstart;
      InsertKeeps(h0, p0, Input(), base, strstart, h);
      assert head[..] == h0[h := strstart] && prev[..] == p0[strstart % WSIZE := h0[h]];
    }

    // ---- the search ----

    /** Compares the string at strstart with the one at m from the fourth byte on; the limit is
        only checked every eighth comparison. */
    method Compare(m: nat) returns (len: nat)
      requires WindowOk() && Ahead() && m < strstart
      modifies this`pastEnd
      ensures WindowOk() && Sized() && strstart < WINDOW_SIZE
      ensures 3 <= len <= MAX_MATCH && Repeats(window[..], strstart + 3, strstart - m, len - 3)
      ensures len == MAX_MATCH || Differ(m, len)
      ensures pastEnd == (old(pastEnd) || strstart + len >= WINDOW_SIZE)
    {
      hide Matcher.WindowOk, ChainsOk, Repeats;
      Placed();
      var s := strstart;
      len := 2;
      RepeatsMore(window[..], s + 3, s - m, 0);
      while true
        invariant WindowOk()
        invariant 2 <= len < MAX_MATCH && pastEnd == (old(pastEnd) || s + len >= WINDOW_SIZE)
        invariant Repeats(window[..], s + 3, s - m, len - 2)
        decreases MAX_MATCH - len
      {
        len := len + 1;
        Look(len);
        RepeatsMore(window[..], s + 3, s - m, len - 3);
        if window[s + len] != window[m + len] {
          break;
        }
        if (len - 2) % 8 == 0 && len >= MAX_MATCH {
          break;
        }
      }
    }

    /** Room for a step: enough lookahead, except at the end of the input. */
    ghost predicate Ahead()
      reads this`lookahead, this`eofile
    {
      lookahead > 0 && (lookahead >= MIN_LOOKAHEAD || eofile)
    }

    /** The string at p has the hash of the one at strstart, if that one is complete. */
    ghost predicate SameHash(p: nat)
      reads this`strstart, this`lookahead, this`base, src
      requires p < strstart && src.pos <= |src.data|
    {
      lookahead >= 3 && base + strstart + 3 <= src.pos ==> HashAt(Input(), base + p) == HashAt(Input(), base + strstart)
    }

    lemma LinkSame(p: nat)
      requires Linked(strstart + 1) && p < strstart <= p + MAX_DIST && SameHash(p)
      ensures head.Length == HASH_SIZE && prev.Length == WSIZE
      ensures prev[p % WSIZE] == 0 || (prev[p % WSIZE] < p && SameHash(prev[p % WSIZE]))
    {
      hide HashAt, ChainsOk;
      LinkIs(head[..], prev[..], Input(), base, strstart + 1, p);
    }

    ghost predicate Differ(m: nat, i: nat)
      reads this`strstart, window
      requires m < strstart && strstart + i < window.Length
    {
      window[m + i] != window[strstart + i]
    }

    /** The search looks at the byte i after strstart. */
    ghost method Look(i: nat)
      requires WindowOk() && Ahead() && i <= MAX_MATCH
      modifies this`pastEnd
      ensures WindowOk() && pastEnd == (old(pastEnd) || strstart + i >= WINDOW_SIZE)
    {
      pastEnd := pastEnd || strstart + i >= WINDOW_SIZE;
    }

    lemma Placed()
      requires WindowOk() && Ahead()
      ensures Sized() && strstart <= WINDOW_SIZE - MIN_MATCH && base + strstart + lookahead == src.pos <= |src.data|
    {
    }

    /** The first two bytes were compared, those from the fourth on repeat; the hash vouches for the third. */
    lemma ThirdRepeats(m: nat, len: nat)
      requires WindowOk() && lookahead >= 3 && m < strstart && SameHash(m)
      requires window[m] == window[strstart] && window[m + 1] == window[strstart + 1]
      requires len >= 3 && Repeats(window[..], strstart + 3, strstart - m, len - 3)
      ensures Repeats(window[..], strstart, strstart - m, len)
    {
      hide HashAt, Shows, Repeats;
      WholeRepeat(window[..], src.data, Input(), base, strstart + lookahead, m, strstart, len);
    }

    /** One candidate of longest_match: the length of its match, or 0 if it is skipped. The third
        byte is never compared; the hash vouches for it. */
    method Candidate(m: nat, bestLen: nat) returns (len: nat)
      requires WindowOk() && Ahead() && m < strstart && 1 <= bestLen <= MAX_MATCH
      requires SameHash(m)
      modifies this`pastEnd
      ensures WindowOk() && len <= MAX_MATCH && strstart < WINDOW_SIZE && window.Length == WINDOW_SIZE + MAX_MATCH
      ensures len == 0 || len == MAX_MATCH || Differ(m, len)
      ensures len == 0 ==> Differ(m, bestLen) || Differ(m, bestLen - 1) || Differ(m, 0) || Differ(m, 1)
      ensures pastEnd == (old(pastEnd) || strstart + bestLen >= WINDOW_SIZE || strstart + len >= WINDOW_SIZE)
      ensures lookahead >= 3 ==> Repeats(window[..], strstart, strstart - m, len)
    {
      hide HashAt, Matcher.WindowOk, Matcher.SameHash, Repeats;
      Placed();
      Look(bestLen);
      var s := strstart;
      RepeatsMore(window[..], s, s - m, 0);
      if window[m + bestLen] != window[s + bestLen] || window[m + bestLen - 1] != window[s + bestLen - 1]
         || window[m] != window[s] || window[m + 1] != window[s + 1] {
        return 0;
      }
      len := Compare(m);
      if lookahead >= 3 {
        ThirdRepeats(m, len);
      }
    }

    /** If everything up to the end of the window repeats, the match is as long as can be or the search has left the window. */
    ghost predicate Whole(past: bool, hashHead: nat, prevLength: nat, bestLen: nat)
      reads this`strstart, window
      requires hashHead < strstart <= WINDOW_SIZE
    {
      prevLength < MIN_MATCH && Repeats(window[..], strstart, strstart - hashHead, WINDOW_SIZE - strstart) ==>
        if strstart + MAX_MATCH < WINDOW_SIZE then bestLen == MAX_MATCH else past
    }

    lemma SearchedWhole(past: bool, m: nat, bestLen: nat, len: nat, prevLength: nat, hashHead: nat)
      requires Sized() && m < strstart <= WINDOW_SIZE - MIN_MATCH && 1 <= bestLen <= MAX_MATCH && len <= MAX_MATCH && hashHead < strstart
      requires len == 0 || len == MAX_MATCH || Differ(m, len)
      requires len == 0 ==> Differ(m, bestLen) || Differ(m, bestLen - 1) || Differ(m, 0) || Differ(m, 1)
      requires strstart + len >= WINDOW_SIZE ==> pastEnd
      requires past ==> pastEnd
      requires (m == hashHead && bestLen == prevLength) || Whole(past, hashHead, prevLength, bestLen)
      ensures Whole(pastEnd, hashHead, prevLength, if len > bestLen then len else bestLen)
    {
      hide Repeats;
      if prevLength < MIN_MATCH && Repeats(window[..], strstart, strstart - hashHead, WINDOW_SIZE - strstart) && bestLen == prevLength && m == hashHead {
        RepeatsAt(window[..], strstart, strstart - m, WINDOW_SIZE - strstart, 0);
        RepeatsAt(window[..], strstart, strstart - m, WINDOW_SIZE - strstart, 1);
        RepeatsAt(window[..], strstart, strstart - m, WINDOW_SIZE - strstart, bestLen);
        RepeatsAt(window[..], strstart, strstart - m, WINDOW_SIZE - strstart, bestLen - 1);
        RepeatsAt(window[..], strstart, strstart - m, WINDOW_SIZE - strstart, len);
      }
    }

    /** The comparison, or one of the tests before it, has found a byte that differs or come to the limit. */
    lemma NothingLonger(m: nat, bestLen: nat, len: nat)
      requires Sized() && m < strstart <= WINDOW_SIZE - MIN_MATCH && 1 <= bestLen <= MAX_MATCH && len <= MAX_MATCH
      requires len == 0 || len == MAX_MATCH || Differ(m, len)
      requires len == 0 ==> Differ(m, bestLen) || Differ(m, bestLen - 1) || Differ(m, 0) || Differ(m, 1)
      ensures NoLonger(window[..], strstart, m, if len > bestLen then len else bestLen)
    {
      hide Repeats;
      forall n | 0 <= n <= MAX_MATCH && SameFor(window[..], strstart, m, n) && n > bestLen ensures n <= len {
        RepeatsAt(window[..], strstart, strstart - m, n, 0);
        RepeatsAt(window[..], strstart, strstart - m, n, 1);
        RepeatsAt(window[..], strstart, strstart - m, n, bestLen);
        RepeatsAt(window[..], strstart, strstart - m, n, bestLen - 1);
        RepeatsAt(window[..], strstart, strstart - m, n, len);
      }
    }

    /** The assertion before the search. */
    ghost method CheckLookahead()
      requires WindowOk() && Ahead()
      modifies this`tooShort
      ensures WindowOk() && tooShort == (old(tooShort) || strstart > WINDOW_SIZE - MIN_LOOKAHEAD)
    {
      tooShort := tooShort || strstart > WINDOW_SIZE - MIN_LOOKAHEAD;
    }

    /** The string at matchStart is a match of the given length, if what lies ahead is long enough for one. */
    ghost predicate MatchAt(len: nat)
      reads this`matchStart, this`strstart, this`lookahead, window
    {
      && 0 < matchStart < strstart <= matchStart + MAX_DIST
      && (lookahead >= 3 ==> Repeats(window[..], strstart, strstart - matchStart, len))
    }

    /** A candidate with a longer match becomes the match. */
    method Improve(cur: nat, bestLen: nat, ghost hashHead: nat, ghost prevLength: nat) returns (len: nat)
      requires WindowOk() && Ahead() && 0 < cur < strstart <= cur + MAX_DIST && 1 <= bestLen <= MAX_MATCH && SameHash(cur)
      requires hashHead < strstart <= WINDOW_SIZE <= window.Length
      requires (cur == hashHead && bestLen == prevLength) || Whole(pastEnd, hashHead, prevLength, bestLen)
      modifies this`matchStart, this`pastEnd
      ensures WindowOk() && (old(pastEnd) ==> pastEnd) && len <= MAX_MATCH
      ensures if len > bestLen then MatchAt(len) else matchStart == old(matchStart)
      ensures Whole(pastEnd, hashHead, prevLength, if len > bestLen then len else bestLen)
      ensures NoLonger(window[..], strstart, cur, if len > bestLen then len else bestLen)
    {
      hide Matcher.WindowOk, Matcher.SameHash, Matcher.Whole, Repeats, NoLonger;
      Placed();
      ghost var past := pastEnd;
      len := Candidate(cur, bestLen);
      SearchedWhole(past, cur, bestLen, len, prevLength, hashHead);
      NothingLonger(cur, bestLen, len);
      if len > bestLen {
        matchStart := cur;
      }
    }

    /** longest_match: a match longer than prevLength, or prevLength and matchStart as it was. No earlier string that was
        tried repeats for longer; tried are the strings of the chain, the latest first, that are near enough, up to the
        length of the chain or until a match is nice. */
    method LongestMatch(hashHead: nat, prevLength: nat, cfg: Config) returns (bestLen: nat, ghost tried: seq<nat>)
      requires WindowOk() && Linked(strstart + 1) && Ahead() && 1 <= prevLength <= MAX_MATCH
      requires 0 < hashHead < strstart <= hashHead + MAX_DIST
      requires SameHash(hashHead)
      modifies this`matchStart, this`pastEnd, this`tooShort
      ensures WindowOk() && (old(pastEnd) ==> pastEnd)
      ensures tooShort == (old(tooShort) || strstart > WINDOW_SIZE - MIN_LOOKAHEAD)
      ensures Whole(pastEnd, hashHead, prevLength, bestLen)
      ensures prevLength <= bestLen <= MAX_MATCH
      ensures if bestLen == prevLength then matchStart == old(matchStart) else MatchAt(bestLen)
      ensures prev.Length == WSIZE && tried != [] && tried[0] == hashHead && Best(window[..], strstart, tried, bestLen)
      ensures tried == Visits(prev[..], hashHead, if strstart > MAX_DIST then strstart - MAX_DIST else 0, ChainLength(cfg, prevLength))
              || bestLen >= cfg.niceMatch
    {
      hide ChainsOk, Repeats, Matcher.WindowOk, Matcher.Whole, Matcher.SameHash, Matcher.Linked, Matcher.MatchAt, NoLonger, Best, Visits, Trying;
      Placed();
      LinkSame(hashHead);
      CheckLookahead();
      var chain: nat := cfg.maxChain;
      if prevLength >= cfg.goodMatch {
        chain := chain / 4;
      }
      var limit: nat := if strstart > MAX_DIST then strstart - MAX_DIST else 0;
      ghost var all := Visits(prev[..], hashHead, limit, chain);
      tried := [];
      TryFirst(window[..], strstart, prev[..], limit, hashHead, chain, prevLength);
      var cur := hashHead;
      bestLen := prevLength;
      while true
        invariant 0 < cur < strstart <= cur + MAX_DIST && prevLength <= bestLen <= MAX_MATCH
        invariant WindowOk() && src.pos <= |src.data| && (old(pastEnd) ==> pastEnd)
        invariant tooShort == (old(tooShort) || strstart > WINDOW_SIZE - MIN_LOOKAHEAD)
        invariant (cur == hashHead && bestLen == prevLength) || Whole(pastEnd, hashHead, prevLength, bestLen)
        invariant SameHash(cur)
        invariant if bestLen == prevLength then matchStart == old(matchStart) else MatchAt(bestLen)
        invariant Trying(window[..], strstart, prev[..], limit, tried, cur, chain, all, bestLen)
        invariant all != [] && all[0] == hashHead && (tried == [] ==> cur == hashHead)
        decreases cur
      {
        var found := Improve(cur, bestLen, hashHead, prevLength);
        TryNext(window[..], strstart, prev[..], limit, tried, cur, chain, all, bestLen, if found > bestLen then found else bestLen);
        tried := tried + [cur];
        if found > bestLen {
          bestLen := found;
          if found >= cfg.niceMatch {
            break;
          }
        }
        LinkSame(cur);
        cur := prev[cur % WSIZE];
        chain := (chain - 1) % TWO32;
        if cur <= limit || chain == 0 {
          break;
        }
      }
    }

    /** The search of deflate's loop: a match longer than prevLength is a match in the input. */
    method Search(hashHead: nat, prevLength: nat, cfg: Config) returns (matchLength: nat, ghost tried: seq<nat>)
      requires WindowOk() && Linked(strstart + 1) && Ahead() && 1 <= prevLength <= MAX_MATCH
      requires hashHead < strstart || hashHead == 0
      requires hashHead != 0 && lookahead >= 3 ==> HashAt(Input(), base + hashHead) == HashAt(Input(), base + strstart)
      modifies this`matchStart, this`pastEnd, this`tooShort
      ensures WindowOk() && (old(pastEnd) ==> pastEnd) && (old(tooShort) ==> tooShort)
      ensures 1 <= matchLength <= MAX_MATCH && (prevLength >= cfg.maxLazy ==> matchLength == MIN_MATCH - 1)
      ensures Zeros() && prevLength < MIN_MATCH <= cfg.maxLazy && 0 < hashHead == strstart - 1 && base + hashHead >= FirstZero(src.data) ==>
                Searched(strstart, lookahead, matchLength)
      ensures matchLength >= MIN_MATCH && matchLength > prevLength ==> IsMatch(Input(), base + strstart, base + matchStart, matchLength)
      ensures prev.Length == WSIZE && Tried(hashHead, prevLength, cfg, tried, matchLength)
      ensures matchLength == MIN_MATCH ==> (strstart - matchStart) % TWO32 <= TOO_FAR
    {
      hide HashAt, ChainsOk, Repeats, Shows, Checksum, ZeroTail, NoLonger, Best, BestAhead, Visits, Matcher.Tried;
      NotTried(hashHead, prevLength, cfg);
      matchLength, tried := MIN_MATCH - 1, [];
      if hashHead != 0 && prevLength < cfg.maxLazy && strstart - hashHead <= MAX_DIST {
        matchLength, tried := LongestMatch(hashHead, prevLength, cfg);
        ghost var found := matchLength;
        if hashHead == strstart - 1 {
          ZerosRepeat(window[..], src.data, base, strstart);
        }
        if matchLength > lookahead {
          matchLength := lookahead;
        }
        if lookahead >= 3 && found > prevLength {
          RepeatsInInput(window[..], strstart, strstart - matchStart, found, matchLength, src.data, src.pos, base, strstart + lookahead);
        }
        if matchLength == MIN_MATCH && (strstart - matchStart) % TWO32 > TOO_FAR {
          matchLength := matchLength - 1;
        }
        TriedCut(hashHead, prevLength, cfg, tried, found, matchLength);
      }
    }

    /** What has been tried: if the previous match leaves anything to look for and the head of the chain is near enough, that
        string first, and no string tried makes a longer match; all of them unless a match is nice or as long as can be. */
    ghost predicate Tried(hashHead: nat, prevLength: nat, cfg: Config, tried: seq<nat>, matchLength: nat)
      reads this`strstart, this`lookahead, window, prev
      requires prev.Length == WSIZE
    {
      hashHead != 0 && prevLength < cfg.maxLazy && strstart - hashHead <= MAX_DIST ==>
        && tried != [] && tried[0] == hashHead && BestAhead(window[..], strstart, lookahead, tried, matchLength)
        && (tried == Visits(prev[..], hashHead, if strstart > MAX_DIST then strstart - MAX_DIST else 0, ChainLength(cfg, prevLength))
            || matchLength >= cfg.niceMatch || matchLength >= lookahead || cfg.niceMatch <= MIN_MATCH || lookahead <= MIN_MATCH)
    }

    lemma NotTried(hashHead: nat, prevLength: nat, cfg: Config)
      requires prev.Length == WSIZE
      ensures !(hashHead != 0 && prevLength < cfg.maxLazy && strstart - hashHead <= MAX_DIST) ==> Tried(hashHead, prevLength, cfg, [], MIN_MATCH - 1)
    {
    }

    lemma TriedCut(hashHead: nat, prevLength: nat, cfg: Config, tried: seq<nat>, found: nat, len: nat)
      requires prev.Length == WSIZE && tried != [] && tried[0] == hashHead && Best(window[..], strstart, tried, found)
      requires tried == Visits(prev[..], hashHead, if strstart > MAX_DIST then strstart - MAX_DIST else 0, ChainLength(cfg, prevLength))
               || found >= cfg.niceMatch
      requires len == found || len == lookahead || (found == MIN_MATCH && len == MIN_MATCH - 1) || (lookahead == MIN_MATCH && len == MIN_MATCH - 1)
      ensures Tried(hashHead, prevLength, cfg, tried, len)
    {
      hide Best, BestAhead, Visits;
      BestCut(window[..], strstart, lookahead, tried, found, len);
    }

    /** The latest string with the hash of the one at strstart. */
    ghost function Latest(): (p: nat)
      reads this`strstart, this`base, src, head
    {
      if src.pos <= |src.data| && base + strstart + 3 <= src.pos && head.Length == HASH_SIZE then head[HashAt(Input(), base + strstart)] else 0
    }

    /** The search is about to look at zeros, after zeros. */
    ghost predicate InZeros(prevLength: nat, cfg: Config)
      reads this`base, this`insH, this`strstart, window, head
    {
      Zeros() && ZeroRun(strstart) && prevLength < MIN_MATCH <= cfg.maxLazy
    }

    /** What it then does, with the given lookahead at strstart. */
    ghost predicate Searched(strstart: nat, lookahead: nat, matchLength: nat)
      reads this`pastEnd, this`tooShort
    {
      && (lookahead >= MAX_MATCH ==> matchLength == MAX_MATCH)
      && (strstart > WINDOW_SIZE - MIN_LOOKAHEAD ==> tooShort)
      && (strstart + MAX_MATCH >= WINDOW_SIZE ==> pastEnd)
    }

    /** The string to be inserted is one of the zeros. */
    ghost predicate EntersZeros()
      reads this`base, this`insH, this`strstart, this`lookahead, window, head
    {
      Zeros() && base + strstart >= FirstZero(src.data) && strstart > 0 && (lookahead >= 3 || ZeroRun(strstart))
    }

    /** INSERT_STRING and the search. */
    method InsertAndSearch(prevLength: nat, cfg: Config) returns (matchLength: nat, ghost tried: seq<nat>)
      requires WindowOk() && Linked(strstart) && HashReady(strstart) && Ahead() && 1 <= prevLength <= MAX_MATCH
      modifies this`insH, this`matchStart, this`pastEnd, this`tooShort, head, prev
      ensures WindowOk() && Linked(strstart + 1) && HashReady(strstart + 1)
      ensures 1 <= matchLength <= MAX_MATCH && (prevLength >= cfg.maxLazy ==> matchLength == MIN_MATCH - 1)
      ensures matchLength >= MIN_MATCH && matchLength > prevLength ==> IsMatch(Input(), base + strstart, base + matchStart, matchLength)
      ensures (old(pastEnd) ==> pastEnd) && (old(tooShort) ==> tooShort)
      ensures old(InZeros(prevLength, cfg)) ==> Searched(strstart, lookahead, matchLength)
      ensures old(EntersZeros()) ==> ZeroRun(strstart + 1)
      ensures prev.Length == WSIZE && Tried(prev[strstart % WSIZE], prevLength, cfg, tried, matchLength)
      ensures lookahead >= 3 ==> prev[strstart % WSIZE] == old(Latest())
      ensures lookahead >= 3 && prevLength < cfg.maxLazy ==> FindsLatest(window[..], strstart, lookahead, old(Latest()), matchLength)
    {
      hide HashAt, ChainsOk, Repeats, Shows, Checksum, ZeroTail, ZerosHash, FirstZero, Primed, Matcher.Tried;
      var hashHead := InsertString();
      matchLength, tried := Search(hashHead, prevLength, cfg);
      if prevLength < cfg.maxLazy {
        TriedLatest(hashHead, prevLength, cfg, tried, matchLength);
      }
    }

    lemma TriedLatest(hashHead: nat, prevLength: nat, cfg: Config, tried: seq<nat>, matchLength: nat)
      requires prev.Length == WSIZE && Tried(hashHead, prevLength, cfg, tried, matchLength) && prevLength < cfg.maxLazy
      ensures FindsLatest(window[..], strstart, lookahead, hashHead, matchLength)
    {
      hide SameFor, Visits;
    }

    lemma ByteBefore()
      requires WindowOk() && base + strstart > 0
      ensures 0 < strstart < window.Length && base + strstart <= |src.data|
      ensures window[strstart - 1] == src.data[base + strstart - 1]
    {
    }

    /** strstart moves past an inserted position. */
    method Advance()
      requires WindowOk() && Linked(strstart + 1) && HashReady(strstart + 1) && lookahead > 0
      modifies this`strstart, this`lookahead
      ensures WindowOk() && Linked(strstart) && HashReady(strstart)
      ensures strstart == old(strstart) + 1 && lookahead == old(lookahead) - 1
    {
      hide ChainsOk, Checksum, Update, Shows;
      strstart, lookahead := strstart + 1, lookahead - 1;
    }

    /** Inserts all strings up to the end of a match of n more bytes after strstart. */
    method InsertRest(n: nat)
      requires WindowOk() && Linked(strstart + 1) && HashReady(strstart + 1)
      requires 1 <= n < lookahead || (eofile && 1 <= n <= lookahead)
      requires !eofile ==> n + 3 <= lookahead
      modifies this`strstart, this`lookahead, this`insH, head, prev
      ensures WindowOk() && Linked(strstart) && HashReady(strstart)
      ensures strstart == old(strstart) + n && lookahead == old(lookahead) - n
      ensures old(Zeros() && ZeroRun(strstart + 1)) ==> ZeroRun(strstart)
    {
      hide ChainsOk, HashAt, Matcher.WindowOk, Matcher.Linked, Matcher.HashReady, FirstZero, Hash3, ZerosHash, ZeroTail;
      var left := n - 1;
      Advance();
      while left != 0
        invariant 0 <= left < n && strstart == old(strstart) + (n - left) && lookahead == old(lookahead) - (n - left)
        invariant WindowOk() && Linked(strstart) && HashReady(strstart)
        invariant old(Zeros() && ZeroRun(strstart + 1)) ==> ZeroRun(strstart)
      {
        var _ := InsertString();
        Advance();
        left := left - 1;
      }
    }

    /** lm_init */
    method LmInit()
      requires Sized() && src.Ok() && src.pos == 0 && strstart == lookahead == insH == base == 0 && !eofile && !pastEnd && !tooShort
      modifies this, window, head, prev, src
      ensures Valid() && base == strstart == 0 && blockStart == old(blockStart) && matchStart == old(matchStart)
      ensures lookahead >= MIN_LOOKAHEAD || eofile
      ensures (old(Zeros()) ==> Zeros()) && (src.Plenty() ==> Reads())
    {
      hide ChainsOk, ZerosHash, Update, ZeroTail, Checksum, Matcher.ZeroRun;
      ClearHead();
      NoneInserted(head[..], prev[..], []);
      assert Input() == [];
      ReadMore(WINDOW_SIZE);
      if eofile {
        return;
      }
      FillWindowIfNeeded();
      insH := Update(Update(insH, window[0]), window[1]);
      assert Primed(insH, window[0], window[1]);
    }

    method ClearHead()
      requires Sized()
      modifies head
      ensures forall h :: 0 <= h < HASH_SIZE ==> head[h] == 0
    {
      var n := 0;
      while n < HASH_SIZE
        invariant 0 <= n <= HASH_SIZE && forall h :: 0 <= h < n ==> head[h] == 0
      {
        head[n] := 0;
        n := n + 1;
      }
    }
  }

  lemma RepeatsInInput(w: seq<Byte>, s: nat, dist: nat, found: nat, len: nat, data: seq<Byte>, pos: nat, base: nat, valid: nat)
    requires Repeats(w, s, dist, found) && len <= found && s + len <= valid && base + valid == pos <= |data|
    requires Shows(w, data, base, valid)
    ensures Repeats(data[..pos], base + s, dist, len)
  {
    var input := data[..pos];
    forall j | base + s <= j < base + s + len ensures input[j] == input[j - dist] {
      assert w[j - base] == w[j - base - dist];
    }
  }

  lemma LinkIs(head: seq<nat>, prev: seq<nat>, input: seq<Byte>, base: nat, next: nat, p: nat)
    requires ChainsOk(head, prev, input, base, next) && next - WSIZE <= p < next
    ensures |prev| == WSIZE
    ensures prev[p % WSIZE] == 0 || prev[p % WSIZE] < p
    ensures prev[p % WSIZE] != 0 && base + p + 3 <= |input| ==>
              HashAt(input, base + prev[p % WSIZE]) == HashAt(input, base + p)
  {
    assert LinkAt(prev, p, input, base);
  }

  /** The first two bytes were compared, those from the fourth on repeat. */
  lemma WholeRepeat(w: seq<Byte>, data: seq<Byte>, input: seq<Byte>, base: nat, n: nat, m: nat, s: nat, len: nat)
    requires Shows(w, data, base, n) && m < s && s + 3 <= n && base + n == |input| && input <= data
    requires HashAt(input, base + m) == HashAt(input, base + s) && w[m] == w[s] && w[m + 1] == w[s + 1]
    requires len >= 3 && Repeats(w, s + 3, s - m, len - 3)
    ensures Repeats(w, s, s - m, len)
  {
    hide HashAt;
    ThirdSame(input, base + m, base + s);
    assert w[m + 2] == w[s + 2];
  }

  lemma ThirdSame(input: seq<Byte>, m: nat, a: nat)
    requires m < a && a + 3 <= |input| && HashAt(input, m) == HashAt(input, a)
    requires input[m] == input[a] && input[m + 1] == input[a + 1]
    ensures input[m + 2] == input[a + 2]
  {
    ThirdByte(input[a], input[a + 1], input[m + 2], input[a + 2]);
  }

  /** Lowers every entry by the size of the slide. */
  method SlideAll(a: array<nat>)
    modifies a
    ensures AllSlid(old(a[..]), a[..])
  {
    var n := 0;
    while n < a.Length
      invariant 0 <= n <= a.Length
      invariant forall i :: 0 <= i < n ==> a[i] == Slid(old(a[i]))
      invariant forall i :: n <= i < a.Length ==> a[i] == old(a[i])
    {
      var m := a[n];
      a[n] := if m >= WSIZE then m - WSIZE else 0;
      n := n + 1;
    }
  }

  lemma WindowSlides(w: seq<Byte>, w': seq<Byte>, data: seq<Byte>, base: nat, n: nat)
    requires |w| == |w'| >= WINDOW_SIZE >= n
    requires forall i :: 0 <= i < WSIZE ==> w'[i] == w[i + WSIZE]
    requires forall i :: WSIZE <= i < |w| ==> w'[i] == w[i]
    ensures Shows(w, data, base, n) && n >= WSIZE ==> Shows(w', data, base + WSIZE, n - WSIZE)
    ensures ZeroTail(w, data, base) ==> ZeroTail(w', data, base + WSIZE)
  {
  }

  lemma WindowGrows(w: seq<Byte>, w': seq<Byte>, data: seq<Byte>, base: nat, n: nat, got: seq<Byte>)
    requires |w| == |w'| && n + |got| <= |w| && base + n + |got| <= |data| && got == data[base + n..base + n + |got|]
    requires forall i :: 0 <= i < n ==> w'[i] == w[i]
    requires forall i :: 0 <= i < |got| ==> w'[n + i] == got[i]
    requires forall i :: n + |got| <= i < |w| ==> w'[i] == w[i]
    ensures Shows(w, data, base, n) ==> Shows(w', data, base, n + |got|)
    ensures ZeroTail(w, data, base) ==> ZeroTail(w', data, base)
  {
    forall i | n <= i < n + |got| ensures w'[i] == data[base + i] {
      assert w'[n + (i - n)] == got[i - n];
    }
  }

  lemma RepeatsAt(w: seq<Byte>, s: nat, dist: nat, n: nat, i: nat)
    requires Repeats(w, s, dist, n)
    ensures i < n ==> w[s + i] == w[s + i - dist]
  {
  }

  /** One more byte. */
  lemma RepeatsMore(w: seq<Byte>, s: nat, dist: nat, n: nat)
    requires dist <= s && s + n < |w|
    ensures Repeats(w, s, dist, 0)
    ensures Repeats(w, s, dist, n) && w[s + n] == w[s + n - dist] ==> Repeats(w, s, dist, n + 1)
  {
  }

  lemma ZerosRepeat(w: seq<Byte>, data: seq<Byte>, base: nat, s: nat)
    requires 0 < s <= WINDOW_SIZE
    ensures ZeroTail(w, data, base) && base + s - 1 >= FirstZero(data) ==> Repeats(w, s, 1, WINDOW_SIZE - s)
  {
  }

  lemma ShownAt(w: seq<Byte>, data: seq<Byte>, base: nat, n: nat, i: nat)
    requires Shows(w, data, base, n)
    ensures i < n ==> w[i] == data[base + i]
  {
  }

  /** The hash after a zero: as it was in a run of zeros, and that of three zeros once three have been seen. */
  lemma ZeroInserted(w: seq<Byte>, data: seq<Byte>, input: seq<Byte>, base: nat, s: nat, h: nat, h': nat)
    requires s + 2 < WINDOW_SIZE <= |w| && h' == Update(h, w[s + 2]) && input <= data
    ensures ZeroTail(w, data, base) && base + s >= FirstZero(data) && h == ZerosHash() ==> h' == h
    ensures ZeroTail(w, data, base) && base + s >= FirstZero(data) && base + s + 3 <= |input| ==> HashAt(input, base + s) == ZerosHash()
  {
    hide Update;
  }

  lemma HashAtIs(input: seq<Byte>, a: nat)
    ensures a + 3 <= |input| ==> HashAt(input, a) == Hash3(input[a], input[a + 1], input[a + 2])
  {
  }

  lemma HeadIs(head: seq<nat>, prev: seq<nat>, input: seq<Byte>, base: nat, next: nat, h: nat)
    requires ChainsOk(head, prev, input, base, next) && h < HASH_SIZE
    ensures |head| == HASH_SIZE && |prev| == WSIZE
    ensures head[h] == 0 || head[h] < next
    ensures head[h] != 0 && base + next + 2 <= |input| ==> HashAt(input, base + head[h]) == h
  {
    assert HeadAt(head, h, input, base, next);
  }
}
