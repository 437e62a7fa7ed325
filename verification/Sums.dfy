/** Sums and counts over sequences, and how they change when one element does. */
module Sums {
  import opened Bits
  import opened Inflate

  function Zeros(n: nat): (z: seq<nat>)
    ensures |z| == n && forall i :: 0 <= i < n ==> z[i] == 0
  {
    seq(n, i => 0)
  }

  function Sum(s: seq<int>): (t: int)
  {
    if s == [] then 0 else Sum(s[..|s| - 1]) + s[|s| - 1]
  }

  lemma {:induction false} SumUpdate(s: seq<int>, k: nat, v: int)
    requires k < |s|
    ensures Sum(s[k := v]) == Sum(s) - s[k] + v
  {
    var n := |s| - 1;
    if k < n {
      SumUpdate(s[..n], k, v);
      assert s[k := v][..n] == s[..n][k := v];
    } else {
      assert s[k := v][..n] == s[..n];
    }
  }

  lemma {:induction false} SumZero(s: seq<int>)
    requires forall i :: 0 <= i < |s| ==> s[i] == 0
    ensures Sum(s) == 0
  {
    if s != [] {
      SumZero(s[..|s| - 1]);
    }
  }

  function Hit(v: nat, len: nat): (n: nat)
  {
    if v == len then 1 else 0
  }

  lemma {:induction false} CountUpdate(s: seq<nat>, k: nat, v: nat, len: nat)
    requires k < |s|
    ensures CountLen(s[k := v], len) == CountLen(s, len) - Hit(s[k], len) + Hit(v, len)
  {
    var n := |s| - 1;
    if k < n {
      CountUpdate(s[..n], k, v, len);
      assert s[k := v][..n] == s[..n][k := v];
    } else {
      assert s[k := v][..n] == s[..n];
    }
  }

  lemma {:induction false} CountAbsent(s: seq<nat>, len: nat)
    requires forall i :: 0 <= i < |s| ==> s[i] != len
    ensures CountLen(s, len) == 0
  {
    if s != [] {
      CountAbsent(s[..|s| - 1], len);
    }
  }

  lemma {:induction false} CountPresent(s: seq<nat>, k: nat)
    requires k < |s|
    ensures CountLen(s, s[k]) >= 1
  {
    var n := |s| - 1;
    if k < n {
      CountPresent(s[..n], k);
    }
  }

  /** Kraft term in units of 2^-max, lengths beyond max counted as max. */
  function Share(len: nat, max: nat): (k: nat)
  {
    if len == 0 then 0 else if len <= max then Pow2(max - len) else 1
  }

  function Shares(s: seq<nat>, max: nat): (k: nat)
  {
    if s == [] then 0 else Shares(s[..|s| - 1], max) + Share(s[|s| - 1], max)
  }

  lemma {:induction false} SharesUpdate(s: seq<nat>, k: nat, v: nat, max: nat)
    requires k < |s|
    ensures Shares(s[k := v], max) == Shares(s, max) - Share(s[k], max) + Share(v, max)
  {
    var n := |s| - 1;
    if k < n {
      SharesUpdate(s[..n], k, v, max);
      assert s[k := v][..n] == s[..n][k := v];
    } else {
      assert s[k := v][..n] == s[..n];
    }
  }

  lemma {:induction false} SharesZero(s: seq<nat>, max: nat)
    requires forall i :: 0 <= i < |s| ==> s[i] == 0
    ensures Shares(s, max) == 0
  {
    if s != [] {
      SharesZero(s[..|s| - 1], max);
    }
  }

  /** Shares at max bits, scaled up, are the Kraft sum of the format. */
  lemma {:induction false} SharesIsKraft(s: seq<nat>, max: nat)
    requires max <= MAX_BITS
    requires forall i :: 0 <= i < |s| ==> s[i] <= max
    ensures Kraft(s) == Shl(Shares(s, max), MAX_BITS - max)
  {
    var d := MAX_BITS - max;
    if s == [] {
      ShlZero(d);
    } else {
      var n := |s| - 1;
      SharesIsKraft(s[..n], max);
      ShlSum(Shares(s[..n], max), Share(s[n], max), d);
      if s[n] > 0 {
        Pow2IsShl(max - s[n]);
        ShlShl(1, max - s[n], d);
        Pow2IsShl(MAX_BITS - s[n]);
      } else {
        ShlZero(d);
      }
    }
  }
}
