/** deflate: lazy matching over the whole input, block by block. */
module Deflating {
  import opened Bits
  import opened Inflate
  import opened BitSinks
  import opened Tables
  import opened Tokens
  import opened Tally
  import opened CodeLengths
  import opened BlockRead
  import opened Block
  import opened Hash
  import opened Chains
  import opened WindowEnd
  import opened Matching

  /** The bits sent so far are whole blocks: a decoder that starts after `start` has produced `out`
      when it reaches their end, whatever follows. */
  ghost predicate WholeBlocks(start: seq<bool>, sent: seq<bool>, out: seq<Byte>)
  {
    start <= sent && forall full :: sent <= full ==> ReadBlocks(full, |start|, []) == ReadBlocks(full, |sent|, out)
  }

  /** A decoder that starts after `start` ends with `out`, whatever follows. */
  ghost predicate Decodes(start: seq<bool>, sent: seq<bool>, out: seq<Byte>)
  {
    start <= sent && forall full :: sent <= full ==> ReadBlocks(full, |start|, []) == Got(out, |sent|)
  }

  lemma BlockSent(start: seq<bool>, sent: seq<bool>, mid: seq<bool>, final: bool, out: seq<Byte>, result: seq<Byte>)
    requires WholeBlocks(start, sent, out) && BlockAdds(sent, mid, final, out, result)
    ensures if final then Decodes(start, mid, result) else WholeBlocks(start, mid, result)
  {
    forall full | mid <= full
      ensures ReadBlocks(full, |start|, []) == if final then Got(result, |mid|) else ReadBlocks(full, |mid|, result)
    {
      assert sent <= full;
      assert ReadBlocks(full, |sent|, out) == if final then Got(result, |mid|) else ReadBlocks(full, |mid|, result);
    }
  }

  /** Everything before bs has been sent in whole blocks; the tokens carry on up to upto. */
  ghost predicate Sent(data: seq<Byte>, start: seq<bool>, sent: seq<bool>, toks: seq<Token>, bs: int, upto: int)
  {
    && 0 <= bs <= upto <= |data|
    && Plays(data[..bs], toks, data[..upto])
    && WholeBlocks(start, sent, data[..bs])
  }

  lemma SentLiteral(data: seq<Byte>, start: seq<bool>, sent: seq<bool>, toks: seq<Token>, bs: int, upto: int, b: Byte)
    requires Sent(data, start, sent, toks, bs, upto) && upto < |data| && data[upto] == b
    ensures Sent(data, start, sent, toks + [Literal(b)], bs, upto + 1)
  {
    hide WholeBlocks;
    PlaysSnoc(data[..bs], toks, data[..upto], Literal(b));
    assert data[..upto] + [b] == data[..upto + 1];
  }

  lemma SentMatch(data: seq<Byte>, start: seq<bool>, sent: seq<bool>, toks: seq<Token>, bs: int, upto: int, dist: nat, len: nat)
    requires Sent(data, start, sent, toks, bs, upto) && 0 < dist <= upto && Repeats(data, upto, dist, len)
    ensures Sent(data, start, sent, toks + [Match(dist, len)], bs, upto + len)
  {
    hide WholeBlocks;
    PlaysSnoc(data[..bs], toks, data[..upto], Match(dist, len));
    CopyIsInput(data, upto, dist, len);
  }

  datatype Stage = InLeadIn | Finds | Leaves | Sends

  class Deflater {
    const m: Matcher
    const blk: BlockCoder
    const sink: BitSink
    const cfg: Config
    const guess: nat -> bool    // whether ct_tally would like to end the block at its k-th call
    ghost const start: seq<bool>  // what was sent before the compressed data
    var calls: nat

    constructor (m: Matcher, blk: BlockCoder, sink: BitSink, cfg: Config, guess: nat -> bool)
      ensures this.m == m && this.blk == blk && this.sink == sink && this.cfg == cfg && start == sink.sent
    {
      this.m, this.blk, this.sink, this.cfg, this.guess := m, blk, sink, cfg, guess;
      start, calls := sink.sent, 0;
    }

    /** The three parts share nothing. */
    ghost predicate Apart()
    {
      && m.Sized() && blk.Arrays() && blk.Clear(sink) && sink.outbuf.Length == OUTBUFSIZ
      && blk.slfc.Length == blk.sldl.Length == L_CODES + 2 && blk.sdfc.Length == blk.sddl.Length == D_CODES
      && (m.head as object) != (sink.outbuf as object) && (m.head as object) != (blk.buf.lBuf as object) && m.head != blk.buf.dBuf
    }

    ghost predicate CoderOk()
      reads blk.buf, blk.buf.lBuf, blk.buf.dBuf, blk.buf.flagBuf, blk.buf.lfc, blk.buf.dfc, blk.bfc, blk.slfc, blk.sldl, blk.sdfc, blk.sddl
      reads sink, sink.outbuf
    {
      blk.Valid() && sink.Valid()
    }

    /** All input before upto has been sent or tallied. */
    ghost predicate SentUpTo(upto: int)
      reads m, m.src, blk.buf, sink
    {
      Sent(m.src.data, start, sink.sent, blk.buf.toks, m.base + m.blockStart, upto)
    }

    /** FLUSH_BLOCK: strstart is the end of the block. */
    method Flush(eof: bool) returns (ghost mid: seq<bool>)
      requires Apart() && CoderOk() && m.WindowOk() && SentUpTo(m.base + m.strstart)
      modifies blk.Repr(), sink, sink.outbuf
      ensures CoderOk() && blk.buf.toks == [] && blk.buf.lastLit == 0 && unchanged(m, m.src, m.window, m.head, m.prev) && sink.BufferOk()
      ensures !eof ==> WholeBlocks(start, sink.sent, m.src.data[..m.base + m.strstart])
      ensures eof ==> Decodes(start, mid, m.src.data[..m.base + m.strstart])
      ensures eof ==> sink.sent == mid + Padding(|mid|) && sink.sent == BytesBits(sink.Out())
    {
      hide BlockAdds, BitSink.Valid, BlockCoder.Valid, Plays, WholeBlocks, Decodes, BytesBits, Padding, Accounted, Chosen, Matcher.WindowOk,
           BlockCoder.Repr, Deflater.Apart;
      BlockIs();
      Separate();
      ghost var data, bs, sent := m.src.data, m.base + m.blockStart, sink.sent;
      var haveData := m.blockStart >= 0;
      var block := if haveData then m.window[m.blockStart..m.strstart] else [];
      var kind, opt, stat;
      kind, opt, stat, mid := blk.FlushBlock(sink, haveData, block, m.strstart - m.blockStart, eof, data[..bs], data[..m.base + m.strstart]);
      BlockSent(start, sent, mid, eof, data[..bs], data[..m.base + m.strstart]);
      BuffersReady();
    }

    lemma Separate()
      requires Apart()
      ensures blk.Clear(sink) && m !in blk.Repr() && m.src !in blk.Repr()
      ensures m.window !in blk.Repr() && m.head !in blk.Repr() && m.prev !in blk.Repr()
      ensures (m.head as object) != (sink.outbuf as object) && (m.prev as object) != (sink.outbuf as object) && (m.window as object) != (sink.outbuf as object)
    {
    }

    /** The window holds the block, unless its start has been moved out of it. */
    lemma BlockIs()
      requires m.WindowOk() && 0 <= m.base + m.blockStart && m.blockStart <= m.strstart
      ensures m.strstart <= m.window.Length && m.base + m.strstart <= m.src.pos <= |m.src.data|
      ensures m.blockStart >= 0 ==>
                m.src.data[..m.base + m.strstart] == m.src.data[..m.base + m.blockStart] + m.window[m.blockStart..m.strstart]
    {
    }

    lemma BuffersReady()
      requires CoderOk() && blk.buf.toks == []
      ensures sink.BufferOk() && blk.buf.lastLit == 0
    {
      hide LFreq, DFreq, Table, CodeTables.Ok, BytesBits;
    }

    /** The chains and the running hash as they are before position `next` is inserted. */
    ghost predicate MatcherOk(next: nat)
      reads m`strstart, m`lookahead, m`base, m`insH, m`eofile, m`pastEnd, m`tooShort, m.src, m.window, m.head, m.prev
    {
      m.WindowOk() && m.Linked(next) && m.HashReady(next)
    }

    /** FLUSH_BLOCK(0), after which the next block starts at strstart. */
    method EndBlock(ghost next: nat)
      requires Apart() && CoderOk() && MatcherOk(next) && SentUpTo(m.base + m.strstart)
      modifies blk.Repr(), sink, sink.outbuf, m`blockStart
      ensures CoderOk() && MatcherOk(next) && SentUpTo(m.base + m.strstart) && blk.buf.lastLit == 0
      ensures unchanged(m.src, m.window, m.head, m.prev, m`strstart, m`lookahead, m`base, m`insH, m`eofile, m`matchStart, m`pastEnd, m`tooShort)
    {
      hide Deflater.CoderOk, Deflater.Apart, BlockCoder.Repr, WholeBlocks, Matcher.Linked, Matcher.HashReady, Shows, Checksum;
      ghost var mid := Flush(false);
      m.blockStart := m.strstart;
    }

    /** ct_tally for a token that carries the tokens on to upto. */
    method TallyToken(dist: nat, lc: Byte, ghost upto: int, ghost next: nat) returns (flush: bool)
      requires Apart() && CoderOk() && MatcherOk(next) && blk.buf.lastLit < LIT_BUFSIZE - 1 && dist <= 32768
      requires Sent(m.src.data, start, sink.sent, blk.buf.toks + [TokenOf(dist, lc)], m.base + m.blockStart, upto)
      modifies this`calls, blk.Repr()
      ensures CoderOk() && MatcherOk(next) && SentUpTo(upto)
      ensures unchanged(m, m.src, m.window, m.head, m.prev)
      ensures !flush ==> blk.buf.lastLit < LIT_BUFSIZE - 1
    {
      hide Sent, LitsHeld, DistsHeld, FlagsHeld, LFreq, DFreq, Table, CodeTables.Ok, BytesBits, ToBits, Pow2, Matches, AllValid,
           Matcher.WindowOk, Matcher.Linked, Matcher.HashReady;
      flush := blk.buf.CtTally(dist, lc, guess(calls));
      calls := calls + 1;
    }

    /** The previous match is output and its strings inserted. */
    method EmitMatch(prevLength: nat, prevMatch: int)
      requires Apart() && CoderOk() && MatcherOk(m.strstart + 1) && m.Ahead() && blk.buf.lastLit < LIT_BUFSIZE - 1
      requires m.base + m.strstart > 0 && SentUpTo(m.base + m.strstart - 1)
      requires IsMatch(m.src.data, m.base + m.strstart - 1, m.base + prevMatch, prevLength)
      requires m.base + m.strstart - 1 + prevLength <= m.src.pos
      modifies this`calls, blk.Repr(), sink, sink.outbuf, m`strstart, m`lookahead, m`insH, m`blockStart, m.head, m.prev
      ensures CoderOk() && MatcherOk(m.strstart) && blk.buf.lastLit < LIT_BUFSIZE - 1 && SentUpTo(m.base + m.strstart)
      ensures m.strstart == old(m.strstart) + prevLength - 1 && (!m.eofile ==> m.lookahead >= 2)
      ensures unchanged(m.src, m.window, m`base, m`eofile, m`matchStart, m`pastEnd, m`tooShort)
      ensures old(m.Zeros() && m.ZeroRun(m.strstart + 1)) ==> m.ZeroRun(m.strstart)
    {
      hide Sent, CoderOk, Apart, BlockCoder.Repr, Matcher.Linked, Matcher.HashReady, Repeats, ZeroTail, ZerosHash, Matcher.ZeroRun;
      ghost var upto := m.base + m.strstart - 1;
      assert m.base + m.strstart + m.lookahead == m.src.pos;
      hide Matcher.WindowOk;
      var dist := m.strstart - 1 - prevMatch;
      SentMatch(m.src.data, start, sink.sent, blk.buf.toks, m.base + m.blockStart, upto, dist, prevLength);
      var flush := TallyToken(dist, prevLength - MIN_MATCH, upto + prevLength, m.strstart + 1);
      InsertRest(prevLength - 1);
      if flush {
        EndBlock(m.strstart);
      }
    }

    /** Inserts the strings of a match; the coder is not touched. */
    method InsertRest(n: nat)
      requires Apart() && CoderOk() && MatcherOk(m.strstart + 1) && 1 <= n <= m.lookahead && (!m.eofile ==> n + 3 <= m.lookahead)
      requires SentUpTo(m.base + m.strstart + n)
      modifies m`strstart, m`lookahead, m`insH, m.head, m.prev
      ensures CoderOk() && MatcherOk(m.strstart) && SentUpTo(m.base + m.strstart)
      ensures m.strstart == old(m.strstart) + n && m.lookahead == old(m.lookahead) - n
      ensures old(m.Zeros() && m.ZeroRun(m.strstart + 1)) ==> m.ZeroRun(m.strstart)
    {
      hide ZeroTail, ZerosHash, Matcher.ZeroRun, Sent, BitSink.Valid, BlockCoder.Valid, Matcher.Linked, Matcher.HashReady, Matcher.WindowOk;
      m.InsertRest(n);
    }

    /** The byte before strstart is output as a literal. */
    method EmitLiteral()
      requires Apart() && CoderOk() && MatcherOk(m.strstart + 1) && m.Ahead() && blk.buf.lastLit < LIT_BUFSIZE - 1
      requires m.base + m.strstart > 0 && SentUpTo(m.base + m.strstart - 1)
      modifies this`calls, blk.Repr(), sink, sink.outbuf, m`strstart, m`lookahead, m`blockStart
      ensures CoderOk() && MatcherOk(m.strstart) && blk.buf.lastLit < LIT_BUFSIZE - 1 && SentUpTo(m.base + m.strstart - 1)
      ensures m.strstart == old(m.strstart) + 1 && m.lookahead == old(m.lookahead) - 1
      ensures old(m.ZeroRun(m.strstart + 1)) ==> m.ZeroRun(m.strstart)
      ensures unchanged(m.src, m.window, m`base, m`eofile, m`matchStart, m`pastEnd, m`tooShort)
    {
      hide Sent, CoderOk, Apart, BlockCoder.Repr, Matcher.Linked, Matcher.HashReady, Matcher.WindowOk, Matcher.ZeroRun, Plays, Pow2;
      ghost var upto := m.base + m.strstart - 1;
      m.ByteBefore();
      SentLiteral(m.src.data, start, sink.sent, blk.buf.toks, m.base + m.blockStart, upto, m.window[m.strstart - 1]);
      var flush := TallyToken(0, m.window[m.strstart - 1], upto + 1, m.strstart + 1);
      if flush {
        EndBlock(m.strstart + 1);
      }
      Advance();
    }

    /** One position further; the coder is not touched. */
    method Advance()
      requires Apart() && CoderOk() && MatcherOk(m.strstart + 1) && m.lookahead > 0 && SentUpTo(m.base + m.strstart)
      modifies m`strstart, m`lookahead
      ensures CoderOk() && MatcherOk(m.strstart) && SentUpTo(m.base + m.strstart - 1)
      ensures m.strstart == old(m.strstart) + 1 && m.lookahead == old(m.lookahead) - 1
    {
      hide Sent, BitSink.Valid, BlockCoder.Valid, Matcher.Linked, Matcher.HashReady, Matcher.WindowOk;
      m.Advance();
    }

    /** Inserts the string at strstart and searches for a match longer than prevLength. */
    method InsertAndSearch(prevLength: nat) returns (matchLength: nat, ghost tried: seq<nat>)
      requires Apart() && CoderOk() && MatcherOk(m.strstart) && m.Ahead() && 1 <= prevLength <= MAX_MATCH
      modifies m`insH, m`matchStart, m`pastEnd, m`tooShort, m.head, m.prev
      ensures (old(m.pastEnd) ==> m.pastEnd) && (old(m.tooShort) ==> m.tooShort)
      ensures prevLength >= cfg.maxLazy ==> matchLength == MIN_MATCH - 1
      ensures old(m.InZeros(prevLength, cfg)) ==> m.Searched(m.strstart, m.lookahead, matchLength)
      ensures old(m.EntersZeros()) ==> m.ZeroRun(m.strstart + 1)
      ensures m.lookahead >= 3 && prevLength < cfg.maxLazy ==> FindsLatest(m.window[..], m.strstart, m.lookahead, old(m.Latest()), matchLength)
      ensures CoderOk() && MatcherOk(m.strstart + 1) && 1 <= matchLength <= MAX_MATCH
      ensures matchLength >= MIN_MATCH && matchLength > prevLength ==> Found(m.base + m.strstart, matchLength)
    {
      hide BitSink.Valid, BlockCoder.Valid, Matcher.Linked, Matcher.HashReady, Repeats, Shows, Checksum, ZeroTail, ZerosHash,
           Matcher.InZeros, Matcher.Searched, Matcher.EntersZeros, Matcher.ZeroRun, Matcher.Tried, Matcher.Latest, FindsLatest;
      matchLength, tried := m.InsertAndSearch(prevLength, cfg);
      if matchLength >= MIN_MATCH && matchLength > prevLength {
        MatchInData(m.src.data, m.src.pos, m.base + m.strstart, m.base + m.matchStart, matchLength);
      }
    }

    /** There is a match of the given length at a with the string at matchStart. */
    ghost predicate Found(a: int, len: nat)
      reads m`base, m`matchStart, m.src
    {
      0 <= a && a + len <= m.src.pos && IsMatch(m.src.data, a, m.base + m.matchStart, len)
    }

    /** A match found at strstart - 1, if any, is a match in the input. */
    ghost predicate Pending(matchLength: nat, available: bool)
      reads m`base, m`matchStart, m`strstart, m.src
    {
      && 1 <= matchLength <= MAX_MATCH && (!available ==> matchLength < MIN_MATCH) && (available ==> m.base + m.strstart > 0)
      && (matchLength >= MIN_MATCH ==> Found(m.base + m.strstart - 1, matchLength))
    }

    /** One round of deflate's loop, up to filling the window. A match of length `found` at strstart replaces the pending one if
        it is longer, and otherwise the pending one is put out; the search finds what the latest string of equal hash makes. */
    method Step(matchLength0: nat, available0: bool) returns (matchLength: nat, available: bool, ghost found: nat)
      requires Apart() && CoderOk() && MatcherOk(m.strstart) && m.Ahead() && blk.buf.lastLit < LIT_BUFSIZE - 1
      requires Pending(matchLength0, available0) && SentUpTo(m.base + m.strstart - (if available0 then 1 else 0))
      modifies this`calls, blk.Repr(), sink, sink.outbuf, m, m.head, m.prev
      ensures CoderOk() && MatcherOk(m.strstart) && blk.buf.lastLit < LIT_BUFSIZE - 1 && (!m.eofile ==> m.lookahead >= 2)
      ensures Pending(matchLength, available) && SentUpTo(m.base + m.strstart - (if available then 1 else 0))
      ensures m.base == old(m.base) && m.strstart > old(m.strstart) && unchanged(m.src, m.window) && m.eofile == old(m.eofile)
      ensures (old(m.pastEnd) ==> m.pastEnd) && (old(m.tooShort) ==> m.tooShort)
      ensures available <==> matchLength0 < MIN_MATCH || found > matchLength0
      ensures m.strstart == old(m.strstart) + (if available then 1 else matchLength0 - 1)
      ensures matchLength == if available then found else MIN_MATCH - 1
      ensures cfg.maxLazy <= matchLength0 ==> found == MIN_MATCH - 1
      ensures old(m.lookahead) >= 3 && matchLength0 < cfg.maxLazy ==> FindsLatest(m.window[..], old(m.strstart), old(m.lookahead), old(m.Latest()), found)
      ensures matchLength0 < MIN_MATCH && old(m.InZeros(matchLength0, cfg)) ==> m.Searched(old(m.strstart), old(m.lookahead), matchLength)
      ensures old(m.EntersZeros()) ==> m.ZeroRun(m.strstart)
    {
      hide Sent, CoderOk, Apart, BlockCoder.Repr, Matcher.Linked, Matcher.HashReady, Matcher.WindowOk, IsMatch;
      hide ZeroTail, ZerosHash, Matcher.ZeroRun, Matcher.InZeros, Matcher.Searched, FirstZero, FindsLatest;
      var prevLength, prevMatch := matchLength0, m.matchStart;
      available := available0;
      ghost var a := m.base + m.strstart - 1;
      assert prevLength >= MIN_MATCH ==> Found(a, prevLength);
      ghost var zeros := m.EntersZeros();
      ghost var tried;
      matchLength, tried := InsertAndSearch(prevLength);
      found := matchLength;
      ghost var w, la := m.window[..], m.lookahead;
      assert la >= 3 && prevLength < cfg.maxLazy ==> FindsLatest(w, m.strstart, la, old(m.Latest()), found);
      assert zeros ==> m.Zeros() && m.ZeroRun(m.strstart + 1);
      if prevLength >= MIN_MATCH && matchLength <= prevLength {
        EmitMatch(prevLength, prevMatch);
        available := false;
        matchLength := MIN_MATCH - 1;
      } else if available {
        EmitLiteral();
      } else {
        available := true;
        Advance();
      }
      assert m.window[..] == w;
    }

    /** fill_window_if_needed; what has been found and sent stays as it is. */
    method Fill(ghost matchLength: nat, ghost available: bool)
      requires Apart() && CoderOk() && MatcherOk(m.strstart) && (!m.eofile ==> m.lookahead >= 2)
      requires Pending(matchLength, available) && SentUpTo(m.base + m.strstart - (if available then 1 else 0))
      modifies m, m.window, m.head, m.prev, m.src
      ensures CoderOk() && MatcherOk(m.strstart) && (m.lookahead >= MIN_LOOKAHEAD || m.eofile)
      ensures Pending(matchLength, available) && SentUpTo(m.base + m.strstart - (if available then 1 else 0))
      ensures m.base + m.strstart == old(m.base + m.strstart) && unchanged(this) && unchanged(blk.buf)
      ensures m.pastEnd == old(m.pastEnd) && m.tooShort == old(m.tooShort) && (old(m.eofile) ==> m.eofile)
      ensures old(m.Zeros()) ==> m.Zeros()
      ensures old(m.ZeroRun(m.strstart)) ==> m.ZeroRun(m.strstart)
      ensures old(m.Reads() && (m.src.pos == |m.src.data| && !m.eofile ==> m.strstart < WSIZE + MAX_DIST)) ==> m.Reads()
    {
      hide Sent, BitSink.Valid, BlockCoder.Valid, Matcher.Linked, Matcher.WindowOk, IsMatch, Primed, ZeroTail, ZerosHash, Matcher.ZeroRun, Matcher.Reads;
      WindowSize();
      m.FillWindowIfNeeded();
      WindowSize();
    }

    /** The input is the one that lets the search run past the window, and deflate's loop stands where it should
        in it, or the search has run past the window already. */
    ghost predicate OnTrack(matchLength: nat)
      reads m, m.src, m.window, m.head
    {
      && WorstInput()
      && (PastWindow()
          || (m.Zeros() && m.Reads() && OnSchedule(|m.src.data|, m.base + m.strstart, matchLength, m.ZeroRun(m.strstart), m.eofile)))
    }

    ghost predicate WorstInput()
    {
      var n := |m.src.data|;
      MAX_SAFE < Left(n) <= WINDOW_SIZE - 2 && m.src.data == Worst(n) && MIN_MATCH <= cfg.maxLazy <= MAX_MATCH
    }

    /** The assertion has failed, and if enough was left in the window a byte past it has been compared. */
    ghost predicate PastWindow()
      reads m`pastEnd, m`tooShort
    {
      m.tooShort && (Left(|m.src.data|) > MAX_INSIDE ==> m.pastEnd)
    }

    /** What the next step is about to do in that input. */
    ghost predicate StageIs(stage: Stage, matchLength: nat)
      reads m, m.src, m.window, m.head
    {
      var n, a := |m.src.data|, m.base + m.strstart;
      && MAX_SAFE < Left(n) <= WINDOW_SIZE - 2
      && match stage
         case InLeadIn => matchLength < MIN_MATCH && a <= LeadIn(n) && (a == LeadIn(n) ==> m.EntersZeros())
         case Finds =>
           && matchLength < MIN_MATCH && m.InZeros(matchLength, cfg) && m.EntersZeros() && m.lookahead >= MAX_MATCH
           && a < Top(n) + MAX_MATCH - 1 && (Top(n) + MAX_MATCH - 1 - a) % MAX_MATCH == 0
         case Leaves =>
           && matchLength < MIN_MATCH && m.InZeros(matchLength, cfg) && m.strstart > WINDOW_SIZE - MIN_LOOKAHEAD
           && (Left(n) > MAX_INSIDE ==> m.strstart + MAX_MATCH >= WINDOW_SIZE)
         case Sends =>
           && matchLength == MAX_MATCH && m.EntersZeros() && a <= Top(n) && (Top(n) - a) % MAX_MATCH == 0 && (a == Top(n) ==> m.eofile)
    }

    /** The end of the input has been found only where there is one. */
    lemma AtEnd()
      requires m.WindowOk() && m.Reads()
      ensures m.eofile ==> m.src.pos == |m.src.data|
      ensures m.base + m.strstart + m.lookahead == m.src.pos <= |m.src.data| && m.base % WSIZE == 0
    {
    }

    lemma StageOf(matchLength: nat) returns (stage: Stage)
      requires OnTrack(matchLength) && !PastWindow() && m.WindowOk() && m.Ahead()
      ensures StageIs(stage, matchLength)
    {
      hide Worst, Matcher.WindowOk, ZeroTail, ZerosHash, Left, Top, LeadIn, Source.Plenty, FirstZero;
      var n, a := |m.src.data|, m.base + m.strstart;
      WorstIs(n);
      AtEnd();
      TopIs(n);
      if a <= LeadIn(n) && matchLength < MIN_MATCH {
        stage := InLeadIn;
      } else if matchLength == MAX_MATCH {
        stage := Sends;
      } else if a < Top(n) + MAX_MATCH - 1 {
        stage := Finds;
      } else {
        stage := Leaves;
      }
    }

    /** The step just taken is the one that was due. */
    lemma Stepped(stage: Stage, s: nat, matchLength: nat, available: bool)
      requires MAX_SAFE < Left(|m.src.data|)
      requires m.Zeros() && m.Reads() && m.src.data == Worst(|m.src.data|) && MIN_MATCH <= cfg.maxLazy <= MAX_MATCH
      requires Taken(stage, s, matchLength) && Pending(matchLength, available)
      ensures OnTrack(matchLength)
    {
      hide Worst, ZeroTail, Matcher.Reads, Matcher.ZeroRun, OnSchedule, IsMatch, Left, LeadIn, Top;
      var n, a := |m.src.data|, m.base + s;
      match stage
      case InLeadIn =>
        if matchLength >= MIN_MATCH {
          NoMatchAt(a, matchLength);
        }
        LeavesLeadIn(n, a + 1, matchLength, m.ZeroRun(m.strstart), m.eofile);
      case Finds => MatchFound(n, a, m.eofile);
      case Leaves =>
      case Sends => MatchSent(n, a, m.eofile);
    }

    ghost predicate Taken(stage: Stage, s: nat, matchLength: nat)
      reads m, m.src, m.window, m.head
    {
      var n, a := |m.src.data|, m.base + s;
      && MAX_SAFE < Left(n) <= WINDOW_SIZE - 2
      && match stage
         case InLeadIn => m.strstart == s + 1 && a <= LeadIn(n) && (a == LeadIn(n) ==> m.ZeroRun(m.strstart))
         case Finds =>
           && m.strstart == s + 1 && matchLength == MAX_MATCH && m.ZeroRun(m.strstart)
           && a < Top(n) + MAX_MATCH - 1 && (Top(n) + MAX_MATCH - 1 - a) % MAX_MATCH == 0
         case Leaves => PastWindow()
         case Sends =>
           && m.strstart == s + MAX_MATCH - 1 && matchLength == MIN_MATCH - 1 && m.ZeroRun(m.strstart)
           && a <= Top(n) && (Top(n) - a) % MAX_MATCH == 0 && (a == Top(n) ==> m.eofile)
    }

    lemma NoMatchAt(a: nat, len: nat)
      requires MAX_SAFE < Left(|m.src.data|) && m.src.data == Worst(|m.src.data|) && a <= LeadIn(|m.src.data|)
      requires len >= MIN_MATCH
      ensures !Found(a, len)
    {
      hide Worst, Left, LeadIn, Top;
      if Found(a, len) {
        NoRepeat(|m.src.data|, a, m.base + m.matchStart);
      }
    }

    /** A step in that input. */
    method StepOnTrack(matchLength0: nat, available0: bool) returns (matchLength: nat, available: bool)
      requires Apart() && CoderOk() && MatcherOk(m.strstart) && m.Ahead() && blk.buf.lastLit < LIT_BUFSIZE - 1
      requires Pending(matchLength0, available0) && SentUpTo(m.base + m.strstart - (if available0 then 1 else 0))
      modifies this`calls, blk.Repr(), sink, sink.outbuf, m, m.head, m.prev
      ensures CoderOk() && MatcherOk(m.strstart) && blk.buf.lastLit < LIT_BUFSIZE - 1 && (!m.eofile ==> m.lookahead >= 2)
      ensures Pending(matchLength, available) && SentUpTo(m.base + m.strstart - (if available then 1 else 0))
      ensures m.base + m.strstart > old(m.base + m.strstart) && m.src.pos == old(m.src.pos)
      ensures old(OnTrack(matchLength0)) ==> OnTrack(matchLength)
    {
      hide Sent, CoderOk, Apart, BlockCoder.Repr, Matcher.Linked, Matcher.HashReady, Matcher.WindowOk, IsMatch;
      hide ZerosHash, Matcher.ZeroRun, Matcher.InZeros, Matcher.EntersZeros, ZeroTail, Left, LeadIn, Top, Worst, OnSchedule, Deflater.Pending,
           Matcher.Latest, Matcher.Tried, FindsLatest, Deflater.OnTrack, Matcher.Zeros, Matcher.Reads;
      ghost var s, past, onTrack := m.strstart, OnTrack(matchLength0) && PastWindow(), OnTrack(matchLength0) && !PastWindow();
      ghost var stage := InLeadIn;
      if past || onTrack {
        TrackIs(matchLength0);
      }
      if onTrack {
        stage := StageOf(matchLength0);
      }
      ghost var found;
      matchLength, available, found := Step(matchLength0, available0);
      if onTrack {
        assert Taken(stage, s, matchLength);
        Stepped(stage, s, matchLength, available);
      }
      if past {
        StillPast(matchLength);
      }
    }

    lemma TrackIs(matchLength: nat)
      requires OnTrack(matchLength)
      ensures WorstInput() && (PastWindow() || (m.Zeros() && m.Reads()))
    {
    }

    lemma StillPast(matchLength: nat)
      requires WorstInput() && PastWindow()
      ensures OnTrack(matchLength)
    {
    }

    /** One round of deflate's loop. */
    method Round(matchLength0: nat, available0: bool) returns (matchLength: nat, available: bool)
      requires Apart() && CoderOk() && MatcherOk(m.strstart) && m.Ahead() && blk.buf.lastLit < LIT_BUFSIZE - 1
      requires Pending(matchLength0, available0) && SentUpTo(m.base + m.strstart - (if available0 then 1 else 0))
      modifies this`calls, blk.Repr(), sink, sink.outbuf, m, m.window, m.head, m.prev, m.src
      ensures CoderOk() && MatcherOk(m.strstart) && blk.buf.lastLit < LIT_BUFSIZE - 1 && (m.lookahead >= MIN_LOOKAHEAD || m.eofile)
      ensures Pending(matchLength, available) && SentUpTo(m.base + m.strstart - (if available then 1 else 0))
      ensures m.base + m.strstart > old(m.base + m.strstart) && m.base + m.strstart + m.lookahead == m.src.pos <= |m.src.data|
      ensures old(OnTrack(matchLength0)) ==> OnTrack(matchLength)
    {
      hide Sent, CoderOk, Apart, BlockCoder.Repr, Matcher.Linked, Matcher.HashReady, Matcher.WindowOk, Deflater.Pending;
      hide ZerosHash, Matcher.ZeroRun, Matcher.Zeros, Matcher.Reads, Left, Worst, OnSchedule, Deflater.OnTrack;
      matchLength, available := StepOnTrack(matchLength0, available0);
      FillOnTrack(matchLength, available);
      WindowSize();
    }

    /** In that input no slide is left once all has been read. */
    lemma NoSlide(matchLength: nat)
      requires OnTrack(matchLength) && !PastWindow() && m.WindowOk() && m.src.pos == |m.src.data| && !m.eofile
      ensures m.strstart < WSIZE + MAX_DIST
    {
      hide Worst, Matcher.WindowOk, ZeroTail, Left, Top;
      TopIs(|m.src.data|);
      AtEnd();
    }

    /** Filling the window in that input. */
    method FillOnTrack(ghost matchLength: nat, ghost available: bool)
      requires Apart() && CoderOk() && MatcherOk(m.strstart) && (!m.eofile ==> m.lookahead >= 2) && blk.buf.lastLit < LIT_BUFSIZE - 1
      requires Pending(matchLength, available) && SentUpTo(m.base + m.strstart - (if available then 1 else 0))
      modifies m, m.window, m.head, m.prev, m.src
      ensures CoderOk() && MatcherOk(m.strstart) && (m.lookahead >= MIN_LOOKAHEAD || m.eofile) && blk.buf.lastLit < LIT_BUFSIZE - 1
      ensures Pending(matchLength, available) && SentUpTo(m.base + m.strstart - (if available then 1 else 0))
      ensures m.base + m.strstart == old(m.base + m.strstart)
      ensures old(OnTrack(matchLength)) ==> OnTrack(matchLength)
    {
      hide Sent, CoderOk, Apart, BlockCoder.Repr, Matcher.Linked, Matcher.HashReady, Matcher.WindowOk, Deflater.Pending;
      hide ZerosHash, Matcher.ZeroRun, Matcher.Zeros, Matcher.Reads, Left, Worst, LeadIn, Top;
      if OnTrack(matchLength) && !PastWindow() && m.src.pos == |m.src.data| && !m.eofile {
        NoSlide(matchLength);
      }
      Fill(matchLength, available);
    }

    lemma InputEnded()
      requires m.WindowOk()
      ensures m.src.Ok() && (m.eofile ==> m.src.Ended()) && InBounds(m.src.pos)
    {
      hide Left;
      if m.pastEnd || m.tooShort {
        LeftIs(m.src.pos, m.base);
      }
    }

    /** After an input of n bytes: the assertion has failed and the search has left the window only if the last part
        of the input, which its length tells, nearly filled the window. */
    ghost predicate InBounds(n: nat)
      reads m`pastEnd, m`tooShort
    {
      (m.tooShort ==> MayBeShort(n)) && (m.pastEnd ==> MayLeave(n))
    }

    /** The input that leads past the window has done so when all of it has been handled. */
    lemma TrackEnds(matchLength: nat)
      requires OnTrack(matchLength) && m.WindowOk() && m.lookahead == 0 && m.eofile
      ensures PastWindow()
    {
      hide Worst, Matcher.WindowOk, ZeroTail, Left, Top;
      if !PastWindow() {
        AtEnd();
        TopIs(|m.src.data|);
      }
    }

    lemma WindowSize()
      requires m.WindowOk()
      ensures m.base + m.strstart + m.lookahead == m.src.pos <= |m.src.data|
    {
    }

    /** The last literal, if one is pending. */
    method EmitLast()
      requires Apart() && CoderOk() && MatcherOk(m.strstart) && blk.buf.lastLit < LIT_BUFSIZE - 1
      requires m.base + m.strstart > 0 && SentUpTo(m.base + m.strstart - 1)
      modifies this`calls, blk.Repr()
      ensures CoderOk() && MatcherOk(m.strstart) && SentUpTo(m.base + m.strstart)
      ensures unchanged(m, m.src)
    {
      hide Sent, CoderOk, Apart, BlockCoder.Repr, Matcher.Linked, Matcher.HashReady, Matcher.WindowOk;
      ghost var upto := m.base + m.strstart - 1;
      m.ByteBefore();
      SentLiteral(m.src.data, start, sink.sent, blk.buf.toks, m.base + m.blockStart, upto, m.window[m.strstart - 1]);
      var _ := TallyToken(0, m.window[m.strstart - 1], upto + 1, m.strstart);
    }

    /** deflate: the bits sent decode to exactly the bytes read, for every input, every way of
        reading it, every setting of the search and every choice of where blocks end. */
    method Deflate() returns (ghost mid: seq<bool>)
      requires Apart() && CoderOk() && MatcherOk(0) && m.base == m.strstart == 0 && m.blockStart == 0
      requires m.lookahead >= MIN_LOOKAHEAD || m.eofile
      requires blk.buf.toks == [] && blk.buf.lastLit == 0 && start == sink.sent
      modifies this`calls, blk.Repr(), sink, sink.outbuf, m, m.window, m.head, m.prev, m.src
      ensures CoderOk() && m.src.Ok() && m.src.Ended() && sink.BufferOk()
      ensures Decodes(start, mid, m.src.data[..m.src.pos])
      ensures sink.sent == mid + Padding(|mid|) && sink.sent == BytesBits(sink.Out())
      ensures InBounds(m.src.pos) && (old(OnTrack(MIN_MATCH - 1)) ==> PastWindow())
    {
      hide Sent, CoderOk, Apart, BlockCoder.Repr, Matcher.Linked, Matcher.HashReady, Matcher.WindowOk, IsMatch, Decodes, BytesBits, Padding;
      hide Deflater.OnTrack, Deflater.PastWindow, Deflater.InBounds;
      var available, matchLength: nat := false, MIN_MATCH - 1;
      NothingSent(m.src.data, start, sink.sent);
      WindowSize();
      while m.lookahead != 0
        invariant CoderOk() && MatcherOk(m.strstart) && (m.lookahead >= MIN_LOOKAHEAD || m.eofile) && blk.buf.lastLit < LIT_BUFSIZE - 1
        invariant Pending(matchLength, available) && SentUpTo(m.base + m.strstart - (if available then 1 else 0))
        invariant m.base + m.strstart + m.lookahead == m.src.pos <= |m.src.data|
        invariant old(OnTrack(MIN_MATCH - 1)) ==> OnTrack(matchLength)
        decreases |m.src.data| - (m.base + m.strstart)
      {
        matchLength, available := Round(matchLength, available);
      }
      InputEnded();
      if OnTrack(matchLength) {
        TrackEnds(matchLength);
      }
      if available {
        EmitLast();
      }
      mid := Flush(true);
    }
  }

  lemma NothingSent(data: seq<Byte>, start: seq<bool>, sent: seq<bool>)
    requires start == sent
    ensures Sent(data, start, sent, [], 0, 0)
  {
    assert data[..0] == [];
  }

  /** A match in what has been read is a match in the whole input. */
  lemma MatchInData(data: seq<Byte>, pos: nat, a: nat, m: int, len: nat)
    requires pos <= |data| && IsMatch(data[..pos], a, m, len)
    ensures IsMatch(data, a, m, len) && a + len <= pos
  {
    forall j | a <= j < a + len ensures data[j] == data[j - (a - m)] {
      assert data[..pos][j] == data[..pos][j - (a - m)];
    }
  }
}
