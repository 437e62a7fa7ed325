/** The overflow repair of gen_bitlen on the histogram of lengths: moving leaves down one level at a time until the
    clipped lengths fit the code space again. */
module CountRepair {
  import opened Bits
  import opened Inflate
  import opened Codes
  import opened BitLengths

  /** Shares of the lengths 1..b of a histogram. */
  function CountShares(c: seq<nat>, max: nat, b: nat): (k: nat)
    requires b <= max && b < |c|
    decreases b
  {
    if b == 0 then 0 else CountShares(c, max, b - 1) + Shl(c[b], max - b)
  }

  /** How many codes a histogram has of lengths 1..b. */
  function CountSum(c: seq<nat>, b: nat): (k: nat)
    requires b < |c|
    decreases b
  {
    if b == 0 then 0 else CountSum(c, b - 1) + c[b]
  }

  lemma {:induction false} CountSharesUp(c: seq<nat>, max: nat, b: nat, k: nat)
    requires 1 <= k <= max && b <= max && b < |c| && k < |c|
    ensures var c' := c[k := c[k] + 1];
            && CountShares(c', max, b) == CountShares(c, max, b) + (if k <= b then Pow2(max - k) else 0)
            && CountSum(c', b) == CountSum(c, b) + (if k <= b then 1 else 0)
    decreases b
  {
    if b > 0 {
      CountSharesUp(c, max, b - 1, k);
      if k == b {
        ShlSum(c[k], 1, max - k);
        Pow2IsShl(max - k);
      }
    }
  }

  lemma CountSharesDown(c: seq<nat>, max: nat, k: nat)
    requires 1 <= k <= max < |c| && c[k] >= 1
    ensures var c' := c[k := c[k] - 1];
            && CountShares(c', max, max) == CountShares(c, max, max) - Pow2(max - k)
            && CountSum(c', max) == CountSum(c, max) - 1
  {
    var c' := c[k := c[k] - 1];
    CountSharesUp(c', max, max, k);
    assert c'[k := c'[k] + 1] == c;
  }

  /** With nothing shorter than b, all shares sit at b and above. */
  lemma {:induction false} NoneShorter(c: seq<nat>, max: nat, b: nat)
    requires b <= max && b < |c| && forall i :: 1 <= i <= b ==> c[i] == 0
    ensures CountShares(c, max, b) == 0 && CountSum(c, b) == 0
    decreases b
  {
    if b > 0 {
      NoneShorter(c, max, b - 1);
      ShlZero(max - b);
    }
  }

  /** A histogram that is over-full and has no more codes than code space has a code
      that can still be made longer. */
  lemma SomeShorter(c: seq<nat>, max: nat)
    requires 1 <= max < |c|
    requires CountShares(c, max, max) > Pow2(max) >= CountSum(c, max)
    ensures exists b :: 1 <= b < max && c[b] > 0
  {
    if forall b :: 1 <= b < max ==> c[b] == 0 {
      NoneShorter(c, max, max - 1);
    }
  }

  /** The state between repair rounds: the excess is half the overflow, and more codes
      than that sit at the limit. */
  ghost predicate Repairing(c: seq<nat>, max: nat, overflow: int, codes: nat)
  {
    && |c| == MAX_BITS + 1 && 1 <= max <= MAX_BITS && c[0] == 0
    && 2 * CountShares(c, max, max) == 2 * Pow2(max) + overflow
    && (overflow > 0 ==> 2 * c[max] >= overflow + 2)
    && CountSum(c, max) == codes <= Pow2(max)
  }

  function Round(c: seq<nat>, max: nat, b: nat): (c': seq<nat>)
    requires 1 <= b < max < |c| && c[b] > 0 && c[max] > 0
    ensures |c'| == |c|
  {
    var c1 := c[b := c[b] - 1];
    var c2 := c1[b + 1 := c1[b + 1] + 2];
    c2[max := c2[max] - 1]
  }

  /** One round: the excess falls by exactly one, no code is lost. */
  lemma RoundLowers(c: seq<nat>, max: nat, overflow: int, codes: nat, b: nat)
    requires Repairing(c, max, overflow, codes) && overflow > 0 && 1 <= b < max && c[b] > 0
    ensures Repairing(Round(c, max, b), max, overflow - 2, codes)
  {
    hide CountShares, CountSum;
    var c1 := c[b := c[b] - 1];
    CountSharesDown(c, max, b);
    var h := c1[b + 1 := c1[b + 1] + 1];
    CountSharesUp(c1, max, max, b + 1);
    CountSharesUp(h, max, max, b + 1);
    var c2 := c1[b + 1 := c1[b + 1] + 2];
    assert h[b + 1 := h[b + 1] + 1] == c2;
    CountSharesDown(c2, max, max);
    assert Pow2(max - b) == 2 * Pow2(max - (b + 1));
  }

  // ---- which leaves move ----

  /** The longest length up to b that is in use, or 0. */
  function Longest(c: seq<nat>, b: nat): (k: nat)
    requires b < |c|
    ensures k <= b && (k > 0 ==> c[k] > 0) && forall i :: k < i <= b ==> c[i] == 0
  {
    if b == 0 || c[b] > 0 then b else Longest(c, b - 1)
  }

  /** Rounds that move a leaf of the longest length below the limit. */
  function Rounds(c: seq<nat>, max: nat, n: nat): (c': seq<nat>)
    requires 1 <= max < |c|
    ensures |c'| == |c|
    decreases n
  {
    if n == 0 then c
    else
      var b := Longest(c, max - 1);
      if b == 0 || c[max] == 0 then c else Rounds(Round(c, max, b), max, n - 1)
  }

  /** A round is possible, and the next ones are. */
  lemma RoundPossible(c: seq<nat>, max: nat, overflow: nat, codes: nat)
    requires Repairing(c, max, overflow, codes) && overflow > 0
    ensures var b := Longest(c, max - 1); 1 <= b < max && c[max] > 0 && overflow >= 2 && Repairing(Round(c, max, b), max, overflow - 2, codes)
    ensures Rounds(c, max, overflow / 2) == Rounds(Round(c, max, Longest(c, max - 1)), max, (overflow - 2) / 2)
  {
    SomeShorter(c, max);
    assert overflow != 1 by { assert 2 * CountShares(c, max, max) == 2 * Pow2(max) + overflow; }
    hide CountShares, CountSum;
    RoundLowers(c, max, overflow, codes, Longest(c, max - 1));
  }

  /** The do-while loop of gen_bitlen. */
  method Repair(blCount: array<nat>, max: nat, start: nat, ghost codes: nat)
    requires Repairing(blCount[..], max, start, codes) && start > 0
    modifies blCount
    ensures Repairing(blCount[..], max, 0, codes)
    ensures blCount[..] == Rounds(old(blCount[..]), max, start / 2)
    ensures forall b :: max < b <= MAX_BITS ==> blCount[b] == old(blCount[b])
  {
    hide CountShares, CountSum;
    var overflow: int := start;
    while overflow > 0
      invariant Repairing(blCount[..], max, overflow, codes) && overflow >= 0
      invariant Rounds(blCount[..], max, overflow / 2) == Rounds(old(blCount[..]), max, start / 2)
      invariant forall b :: max < b <= MAX_BITS ==> blCount[b] == old(blCount[b])
      decreases overflow
    {
      ghost var c: seq<nat> := blCount[..];
      RoundPossible(c, max, overflow, codes);
      var bits := max - 1;
      while blCount[bits] == 0
        invariant Longest(c, max - 1) <= bits < max && forall i :: bits < i < max ==> c[i] == 0
        decreases bits
      {
        bits := bits - 1;
      }
      blCount[bits] := blCount[bits] - 1;
      blCount[bits + 1] := blCount[bits + 1] + 2;
      blCount[max] := blCount[max] - 1;
      assert blCount[..] == Round(c, max, bits);
      overflow := overflow - 2;
    }
  }

  // ---- which lengths keep their counts ----

  /** How many rounds the lengths above k and up to j can take: each code of length i can be moved down until all
      its 2^(max - i) shares are codes at the limit. */
  function Room(c: seq<nat>, max: nat, k: nat, j: nat): (n: nat)
    requires j < max && j < |c|
    decreases j
  {
    if j <= k then 0 else
      AtLeastItself(c[j], max - j);
      Room(c, max, k, j - 1) + Shl(c[j], max - j) - c[j]
  }

  lemma AtLeastItself(v: nat, m: nat)
    ensures Shl(v, m) >= v && (m > 0 && v > 0 ==> Shl(v, m) > v)
  {
  }

  lemma {:induction false} RoomUp(c: seq<nat>, max: nat, k: nat, j: nat, x: nat)
    requires j < max < |c| && 1 <= x <= max
    ensures Room(c[x := c[x] + 1], max, k, j) == Room(c, max, k, j) + (if k < x <= j then Pow2(max - x) - 1 else 0)
    decreases j
  {
    if j > k {
      RoomUp(c, max, k, j - 1, x);
      if x == j {
        ShlSum(c[x], 1, max - x);
        Pow2IsShl(max - x);
      }
    }
  }

  lemma RoomDown(c: seq<nat>, max: nat, k: nat, j: nat, x: nat)
    requires j < max < |c| && 1 <= x <= max && c[x] > 0
    ensures Room(c[x := c[x] - 1], max, k, j) == Room(c, max, k, j) - (if k < x <= j then Pow2(max - x) - 1 else 0)
  {
    hide Room;
    var c' := c[x := c[x] - 1];
    RoomUp(c', max, k, j, x);
    assert c'[x := c'[x] + 1] == c;
  }

  lemma RoomUpTwo(c: seq<nat>, max: nat, k: nat, j: nat, x: nat)
    requires j < max < |c| && 1 <= x <= max
    ensures Room(c[x := c[x] + 2], max, k, j) == Room(c, max, k, j) + (if k < x <= j then 2 * Pow2(max - x) - 2 else 0)
  {
    hide Room;
    var h := c[x := c[x] + 1];
    RoomUp(c, max, k, j, x);
    RoomUp(h, max, k, j, x);
    assert h[x := h[x] + 1] == c[x := c[x] + 2];
  }

  lemma {:induction false} NoRoom(c: seq<nat>, max: nat, k: nat, j: nat)
    requires j < max < |c|
    ensures Room(c, max, k, j) == 0 <==> forall i :: k < i <= j ==> c[i] == 0
    decreases j
  {
    if j > k {
      NoRoom(c, max, k, j - 1);
      AtLeastItself(c[j], max - j);
      ShlZero(max - j);
    }
  }

  /** A round takes one off the room above k, or it touches k or a shorter length. */
  lemma RoundRoom(c: seq<nat>, max: nat, b: nat, k: nat)
    requires 1 <= b < max < |c| && c[b] > 0 && c[max] > 0 && k < max
    ensures k < b ==> Room(Round(c, max, b), max, k, max - 1) == Room(c, max, k, max - 1) - 1
    ensures k < b ==> forall i :: 0 <= i <= k ==> Round(c, max, b)[i] == c[i]
  {
    if k < b {
      hide Room;
      var c1 := c[b := c[b] - 1];
      var c2 := c1[b + 1 := c1[b + 1] + 2];
      RoomDown(c, max, k, max - 1, b);
      RoomUpTwo(c1, max, k, max - 1, b + 1);
      RoomDown(c2, max, k, max - 1, max);
      assert Pow2(max - b) == 2 * Pow2(max - (b + 1));
    }
  }

  /** A weight of the counts up to k that falls with every round that touches them. */
  function Weight(c: seq<nat>, k: nat): (w: nat)
    requires k < |c|
  {
    if k == 0 then 0 else 3 * Weight(c, k - 1) + c[k]
  }

  function Pow3(n: nat): (p: nat)
    ensures p >= 1
  {
    if n == 0 then 1 else 3 * Pow3(n - 1)
  }

  lemma {:induction false} WeightUp(c: seq<nat>, k: nat, x: nat)
    requires k < |c| && 1 <= x < |c|
    ensures Weight(c[x := c[x] + 1], k) == Weight(c, k) + (if x <= k then Pow3(k - x) else 0)
    decreases k
  {
    if k > 0 {
      WeightUp(c, k - 1, x);
    }
  }

  lemma {:induction false} SameWeight(c: seq<nat>, c': seq<nat>, k: nat)
    requires k < |c| && k < |c'| && forall i :: 0 <= i <= k ==> c'[i] == c[i]
    ensures Weight(c', k) == Weight(c, k)
    decreases k
  {
    if k > 0 {
      SameWeight(c, c', k - 1);
    }
  }

  lemma RoundWeight(c: seq<nat>, max: nat, b: nat, k: nat)
    requires 1 <= b < max < |c| && c[b] > 0 && c[max] > 0 && k < max
    ensures if b <= k then Weight(Round(c, max, b), k) < Weight(c, k) else Weight(Round(c, max, b), k) == Weight(c, k)
  {
    hide Weight;
    var c1 := c[b := c[b] - 1];
    var h := c1[b + 1 := c1[b + 1] + 1];
    var c2 := c1[b + 1 := c1[b + 1] + 2];
    WeightUp(c1, k, b);
    assert c1[b := c1[b] + 1] == c;
    WeightUp(c1, k, b + 1);
    WeightUp(h, k, b + 1);
    assert h[b + 1 := h[b + 1] + 1] == c2;
    var c3 := c2[max := c2[max] - 1];
    WeightUp(c3, k, max);
    assert c3[max := c3[max] + 1] == c2;
    assert b < k ==> Pow3(k - b) == 3 * Pow3(k - (b + 1));
  }

  lemma {:induction false} RoundsWeight(c: seq<nat>, max: nat, n: nat, k: nat)
    requires 1 <= max < |c| && k < max
    ensures Weight(Rounds(c, max, n), k) <= Weight(c, k)
    decreases n
  {
    if n > 0 {
      var b := Longest(c, max - 1);
      if b > 0 && c[max] > 0 {
        hide Weight, Round;
        RoundWeight(c, max, b, k);
        RoundsWeight(Round(c, max, b), max, n - 1, k);
      }
    }
  }

  /** The lengths up to k keep their counts exactly as long as the longer ones have room for all the rounds. */
  lemma {:induction false} CountsKept(c: seq<nat>, max: nat, overflow: nat, codes: nat, k: nat)
    requires Repairing(c, max, overflow, codes) && k < max
    ensures overflow / 2 <= Room(c, max, k, max - 1) <==> forall i :: 0 <= i <= k ==> Rounds(c, max, overflow / 2)[i] == c[i]
    decreases overflow
  {
    if overflow > 0 {
      hide CountShares, CountSum, Repairing;
      RepairingBounds(c, max, overflow, codes);
      RoundPossible(c, max, overflow, codes);
      var b := Longest(c, max - 1);
      var c' := Round(c, max, b);
      CountsKept(c', max, overflow - 2, codes, k);
      RoundRoom(c, max, b, k);
      NoRoom(c, max, k, max - 1);
      if b <= k {
        RoundWeight(c, max, b, k);
        RoundsWeight(c', max, (overflow - 2) / 2, k);
        if forall i :: 0 <= i <= k ==> Rounds(c, max, overflow / 2)[i] == c[i] {
          SameWeight(c, Rounds(c, max, overflow / 2), k);
        }
      }
    }
  }

  lemma RepairingBounds(c: seq<nat>, max: nat, overflow: int, codes: nat)
    requires Repairing(c, max, overflow, codes)
    ensures |c| == MAX_BITS + 1 && 1 <= max <= MAX_BITS
  {
  }
}
