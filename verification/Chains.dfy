/** The hash chains of the matcher: what head and prev say about the input. Positions are
    indices into the window, whose first byte is input[base]; those below `next` have been
    inserted. Index 0 ends a chain. */
module Chains {
  import opened Bits
  import opened Hash

  const WSIZE := 0x8000
  const MIN_MATCH := 3
  const MAX_MATCH := 258
  const MIN_LOOKAHEAD := MAX_MATCH + MIN_MATCH + 1
  const MAX_DIST := WSIZE - MIN_LOOKAHEAD
  const WINDOW_SIZE := 2 * WSIZE

  /** The hash of the string at a position of the input. */
  function HashAt(input: seq<Byte>, a: nat): (h: nat)
    requires a + 3 <= |input|
    ensures h < HASH_SIZE
  {
    Hash3(input[a], input[a + 1], input[a + 2])
  }

  /** p is an inserted position whose string, if the input is long enough for it to be a real one, has hash h. */
  ghost predicate HeadAt(head: seq<nat>, h: nat, input: seq<Byte>, base: nat, next: nat)
  {
    && h < |head|
    && var p := head[h];
       p == 0 || (p < next && (base + p + 3 <= |input| ==> HashAt(input, base + p) == h))
  }

  /** The link from position p goes back to an earlier position with the same hash. */
  ghost predicate LinkAt(prev: seq<nat>, p: nat, input: seq<Byte>, base: nat)
  {
    && |prev| == WSIZE
    && var q := prev[p % WSIZE];
       q == 0 || (q < p && (base + p + 3 <= |input| ==> HashAt(input, base + q) == HashAt(input, base + p)))
  }

  ghost predicate ChainsOk(head: seq<nat>, prev: seq<nat>, input: seq<Byte>, base: nat, next: nat)
  {
    && |head| == HASH_SIZE && |prev| == WSIZE
    && (forall h :: 0 <= h < HASH_SIZE ==> HeadAt(head, h, input, base, next))
    && (forall p :: next - WSIZE <= p < next && 0 <= p ==> LinkAt(prev, p, input, base))
  }

  /** INSERT_STRING at the next position keeps the chains, whatever the hash when the string
      runs past the end of the input. */
  lemma InsertKeeps(head: seq<nat>, prev: seq<nat>, input: seq<Byte>, base: nat, next: nat, h: nat)
    requires ChainsOk(head, prev, input, base, next) && h < HASH_SIZE
    requires base + next + 3 <= |input| ==> h == HashAt(input, base + next)
    ensures ChainsOk(head[h := next], prev[next % WSIZE := head[h]], input, base, next + 1)
  {
    hide HashAt;
    var head', prev', next' := head[h := next], prev[next % WSIZE := head[h]], next + 1;
    forall k | 0 <= k < HASH_SIZE ensures HeadAt(head', k, input, base, next') {
      assert HeadAt(head, k, input, base, next);
    }
    forall p | next + 1 - WSIZE <= p < next + 1 && 0 <= p ensures LinkAt(prev', p, input, base) {
      if p == next {
        assert HeadAt(head, h, input, base, next);
      } else {
        SlotsDiffer(p, next);
        assert LinkAt(prev, p, input, base);
      }
    }
  }

  lemma SlotsDiffer(p: nat, q: nat)
    requires p < q < p + WSIZE
    ensures p % WSIZE != q % WSIZE
  {
  }

  function Slid(v: nat): (r: nat)
  {
    if v >= WSIZE then v - WSIZE else 0
  }

  ghost predicate AllSlid(a: seq<nat>, b: seq<nat>)
  {
    |a| == |b| && forall i :: 0 <= i < |a| ==> b[i] == Slid(a[i])
  }

  /** Sliding the window keeps the chains. */
  lemma SlideKeeps(head: seq<nat>, prev: seq<nat>, input: seq<Byte>, base: nat, next: nat, head': seq<nat>, prev': seq<nat>)
    requires ChainsOk(head, prev, input, base, next) && AllSlid(head, head') && AllSlid(prev, prev') && next >= WSIZE
    ensures ChainsOk(head', prev', input, base + WSIZE, next - WSIZE)
  {
    hide HashAt;
    var base', next' := base + WSIZE, next - WSIZE;
    forall h | 0 <= h < HASH_SIZE ensures HeadAt(head', h, input, base', next') {
      assert HeadAt(head, h, input, base, next);
      if head'[h] != 0 {
        assert base + WSIZE + head'[h] == base + head[h];
      }
    }
    forall p | next' - WSIZE <= p < next' && 0 <= p ensures LinkAt(prev', p, input, base') {
      assert LinkAt(prev, p + WSIZE, input, base);
      SameSlot(p);
      var q := prev'[p % WSIZE];
      assert base + WSIZE + p == base + (p + WSIZE);
      if q != 0 {
        assert base + WSIZE + q == base + prev[(p + WSIZE) % WSIZE];
      }
    }
  }

  lemma SameSlot(p: nat)
    ensures (p + WSIZE) % WSIZE == p % WSIZE
  {
  }

  /** More input keeps the chains as long as every inserted string was a real one. */
  lemma MoreInputKeeps(head: seq<nat>, prev: seq<nat>, input: seq<Byte>, base: nat, next: nat, more: seq<Byte>)
    requires ChainsOk(head, prev, input, base, next) && (next > 0 ==> base + next + 2 <= |input|)
    ensures ChainsOk(head, prev, input + more, base, next)
  {
    hide HashAt;
    var all := input + more;
    forall a: nat | a + 3 <= |input| ensures HashAt(all, a) == HashAt(input, a) {
      HashGrows(input, more, a);
    }
    forall h | 0 <= h < HASH_SIZE ensures HeadAt(head, h, all, base, next) {
      assert HeadAt(head, h, input, base, next);
    }
    forall p | next - WSIZE <= p < next && 0 <= p ensures LinkAt(prev, p, all, base) {
      assert LinkAt(prev, p, input, base);
    }
  }

  lemma HashGrows(input: seq<Byte>, more: seq<Byte>, a: nat)
    requires a + 3 <= |input|
    ensures HashAt(input + more, a) == HashAt(input, a)
  {
  }

  /** A cleared head table: nothing inserted. */
  lemma NoneInserted(head: seq<nat>, prev: seq<nat>, input: seq<Byte>)
    requires |head| == HASH_SIZE && |prev| == WSIZE && forall h :: 0 <= h < HASH_SIZE ==> head[h] == 0
    ensures ChainsOk(head, prev, input, 0, 0)
  {
    forall h | 0 <= h < HASH_SIZE ensures HeadAt(head, h, input, 0, 0) {
    }
  }
}
