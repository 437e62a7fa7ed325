/** How much of the input is in the window when it ends, and inputs for which the search for the last
    match leaves the window: a lead-in in which no three bytes repeat, and then zeros only. */
module WindowEnd {
  import opened Bits
  import opened Hash
  import opened Chains

  /** The bytes of an input of n bytes that are in the window after the last slide, when there are more than WSIZE of them. */
  function Left(n: nat): (r: nat)
    ensures r <= n && r <= WINDOW_SIZE && (n > WSIZE ==> r > WSIZE)
  {
    if n <= WINDOW_SIZE then n else WSIZE + 1 + (n - 1) % WSIZE
  }

  /** Slides move the window by WSIZE, so the length of the input alone tells how much is left. */
  lemma LeftIs(n: nat, base: nat)
    requires base % WSIZE == 0 && base + WSIZE < n <= base + WINDOW_SIZE
    ensures n - base == Left(n)
  {
  }

  /** With no more than this left in the window there is always enough ahead, and the search stays inside. */
  const MAX_SAFE := WINDOW_SIZE - MIN_LOOKAHEAD + 1
  const MAX_INSIDE := WINDOW_SIZE - MAX_MATCH

  /** The lengths of input for which too little may be ahead of the last search, and those for which it may leave
      the window: what is left in the window nearly fills it. */
  predicate MayBeShort(n: nat): (r: bool)
    ensures r == (MAX_SAFE < Left(n) <= WINDOW_SIZE - 2)
  {
    n >= 65276 && 32508 <= n % WSIZE <= 32766
  }

  predicate MayLeave(n: nat): (r: bool)
    ensures r == (MAX_INSIDE < Left(n) <= WINDOW_SIZE - 2)
  {
    n >= 65279 && 32511 <= n % WSIZE <= 32766
  }

  /** The place of the first zero byte, or the length. */
  ghost function FirstZero(s: seq<Byte>): (z: nat)
    ensures z <= |s| && (z < |s| ==> s[z] == 0) && forall i :: 0 <= i < z ==> s[i] != 0
  {
    if s == [] || s[0] == 0 then 0 else 1 + FirstZero(s[1..])
  }

  lemma FirstZeroIs(s: seq<Byte>, z: nat)
    requires z < |s| && s[z] == 0 && forall i :: 0 <= i < z ==> s[i] != 0
    ensures FirstZero(s) == z
  {
  }

  /** Where the match before the last one starts to be put out, from the start of the input: there are then
      at most MIN_LOOKAHEAD - 1 bytes ahead, and there is no room for a slide. */
  function Top(n: nat): (t: nat)
    requires Left(n) > MAX_SAFE
  {
    n - Left(n) + if Left(n) - MAX_MATCH < WSIZE + MAX_DIST then Left(n) - MAX_MATCH else WSIZE + MAX_DIST - 1
  }

  /** The length of the lead-in that makes whole matches of MAX_MATCH bytes end at Top. */
  function LeadIn(n: nat): (q: nat)
    requires Left(n) > MAX_SAFE
    ensures 1 <= q <= MAX_MATCH && q + 2 <= Top(n) && (Top(n) - 2 - q) % MAX_MATCH == 0
  {
    1 + (Top(n) - 3) % MAX_MATCH
  }

  function LeadByte(i: nat): (b: Byte)
    ensures b != 0
  {
    if i < 255 then i + 1 else 1
  }

  /** The input of n bytes. */
  function Worst(n: nat): (s: seq<Byte>)
    requires Left(n) > MAX_SAFE
  {
    seq(n, i requires 0 <= i < n => if i < LeadIn(n) then LeadByte(i) else 0)
  }

  lemma WorstIs(n: nat)
    requires Left(n) > MAX_SAFE
    ensures FirstZero(Worst(n)) == LeadIn(n) && |Worst(n)| == n
    ensures forall i :: 0 <= i < n ==> Worst(n)[i] == if i < LeadIn(n) then LeadByte(i) else 0
  {
    FirstZeroIs(Worst(n), LeadIn(n));
  }

  /** No three bytes that start in the lead-in, or right behind it, repeat earlier ones. */
  lemma NoRepeat(n: nat, a: nat, m: nat)
    requires Left(n) > MAX_SAFE && m < a <= LeadIn(n) && a + 3 <= n
    ensures exists j :: a <= j < a + 3 && Worst(n)[j] != Worst(n)[j - (a - m)]
  {
    var q, s := LeadIn(n), Worst(n);
    WorstIs(n);
    assert s[a] != s[m] || s[a + 1] != s[m + 1] || s[a + 2] != s[m + 2] by {
      hide Worst, LeadIn, Left, Top;
    }
    assert s[a] == s[a - 0];
    if s[a] != s[m] {
      assert s[a] != s[a - (a - m)];
    } else if s[a + 1] != s[m + 1] {
      assert s[a + 1] != s[a + 1 - (a - m)];
    } else {
      assert s[a + 2] != s[a + 2 - (a - m)];
    }
  }

  /** Where deflate's loop stands in that input, a bytes from its start and with a match of the given length
      pending: in the lead-in, before the search for a match in the zeros, or behind it. `run` says that the last
      string inserted was one of the zeros. */
  ghost predicate OnSchedule(n: nat, a: int, matchLength: nat, run: bool, eofile: bool)
    requires Left(n) > MAX_SAFE
  {
    || (0 <= a <= LeadIn(n) && matchLength < MIN_MATCH)
    || (run && matchLength < MIN_MATCH && a < Top(n) + MAX_MATCH && (Top(n) + MAX_MATCH - 1 - a) % MAX_MATCH == 0 && (a > Top(n) ==> eofile))
    || (run && matchLength == MAX_MATCH && a <= Top(n) && (Top(n) - a) % MAX_MATCH == 0)
  }

  lemma LeavesLeadIn(n: nat, a: int, matchLength: nat, run: bool, eofile: bool)
    requires Left(n) > MAX_SAFE && 0 < a <= LeadIn(n) + 1 && (a > LeadIn(n) ==> run) && matchLength < MIN_MATCH
    ensures OnSchedule(n, a, matchLength, run, eofile)
  {
    hide Left, Top, LeadIn;
    LeadInIs(n);
  }

  lemma LeadInIs(n: nat)
    requires Left(n) > MAX_SAFE
    ensures Top(n) >= LeadIn(n) + 2 && (Top(n) + MAX_MATCH - 1 - (LeadIn(n) + 1)) % MAX_MATCH == 0
  {
    hide Left, Top, LeadIn;
  }

  /** A match of MAX_MATCH bytes is found in the zeros, and put out. */
  lemma MatchFound(n: nat, a: int, eofile: bool)
    requires Left(n) > MAX_SAFE && a < Top(n) + MAX_MATCH - 1 && (Top(n) + MAX_MATCH - 1 - a) % MAX_MATCH == 0
    ensures OnSchedule(n, a + 1, MAX_MATCH, true, eofile)
  {
    hide Left, Top, LeadIn;
  }

  lemma MatchSent(n: nat, a: int, eofile: bool)
    requires Left(n) > MAX_SAFE && a <= Top(n) && (Top(n) - a) % MAX_MATCH == 0 && (a == Top(n) ==> eofile)
    ensures OnSchedule(n, a + MAX_MATCH - 1, MIN_MATCH - 1, true, eofile)
  {
    hide Left, Top, LeadIn;
  }

  lemma TopIs(n: nat)
    requires MAX_SAFE < Left(n) <= WINDOW_SIZE - 2
    ensures MAX_MATCH <= n - Top(n) < MIN_LOOKAHEAD && Top(n) - (n - Left(n)) < WSIZE + MAX_DIST && LeadIn(n) < Top(n) - 1
    ensures Top(n) + MAX_MATCH - 1 - (n - Left(n)) > WINDOW_SIZE - MIN_LOOKAHEAD
    ensures Left(n) > MAX_INSIDE ==> Top(n) + MAX_MATCH - 1 - (n - Left(n)) >= WINDOW_SIZE - MAX_MATCH
  {
  }

  /** The hash of three zeros; in zeros the running hash stays that. */
  function ZerosHash(): (h: nat)
    ensures h < HASH_SIZE && Update(h, 0) == h
  {
    ZerosForget();
    Hash3(0, 0, 0)
  }

  lemma ZerosForget()
    ensures Update(Hash3(0, 0, 0), 0) == Hash3(0, 0, 0)
  {
    hide Update;
    Forgets(Update(0, 0), 0, 0, 0);
  }
}
