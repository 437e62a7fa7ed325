/** The wheel of trial divisors: packed_wheel and unpack_wheel. */
module Wheel {

  const ROWS := 23
  const WHEEL_START := 5
  const WHEEL_SIZE := 485
  const TURN := 2310

  /** The increments of word i, lowest field first. */
  function Increments(i: nat): (row: seq<nat>)
    requires i < ROWS
  {
    if i == 0 then [2, 4, 2, 4, 2, 4, 6] + [2, 6, 4, 2, 4, 6, 6] + [2, 6, 4, 2, 6, 4, 6]
    else if i == 1 then [8, 4, 2, 4, 2, 4, 14] + [4, 6, 2, 10, 2, 6, 6] + [4, 2, 4, 6, 2, 10, 2]
    else if i == 2 then [4, 2, 12, 10, 2, 4, 2] + [4, 6, 2, 6, 4, 6, 6] + [6, 2, 6, 4, 2, 6, 4]
    else if i == 3 then [6, 8, 4, 2, 4, 6, 8] + [6, 10, 2, 4, 6, 2, 6] + [6, 4, 2, 4, 6, 2, 6]
    else if i == 4 then [4, 2, 6, 10, 2, 10, 2] + [4, 2, 4, 6, 8, 4, 2] + [4, 12, 2, 6, 4, 2, 6]
    else if i == 5 then [4, 6, 12, 2, 4, 2, 4] + [8, 6, 4, 6, 2, 4, 6] + [2, 6, 10, 2, 4, 6, 2]
    else if i == 6 then [6, 4, 2, 4, 2, 10, 2] + [10, 2, 4, 6, 6, 2, 6] + [6, 4, 6, 6, 2, 6, 4]
    else if i == 7 then [2, 6, 4, 6, 8, 4, 2] + [6, 4, 8, 6, 4, 6, 2] + [4, 6, 8, 6, 4, 2, 10]
    else if i == 8 then [2, 6, 4, 2, 4, 2, 10] + [2, 10, 2, 4, 2, 4, 8] + [6, 4, 2, 4, 6, 6, 2]
    else if i == 9 then [6, 4, 8, 4, 6, 8, 4] + [2, 4, 2, 4, 8, 6, 4] + [6, 6, 6, 2, 6, 6, 4]
    else if i == 10 then [2, 4, 6, 2, 6, 4, 2] + [4, 2, 10, 2, 10, 2, 6] + [4, 6, 2, 6, 4, 2, 4]
    else if i == 11 then [6, 6, 8, 4, 2, 6, 10] + [8, 4, 2, 4, 2, 4, 8] + [10, 6, 2, 4, 8, 6, 6]
    else if i == 12 then [4, 2, 4, 6, 2, 6, 4] + [6, 2, 10, 2, 10, 2, 4] + [2, 4, 6, 2, 6, 4, 2]
    else if i == 13 then [4, 6, 6, 2, 6, 6, 6] + [4, 6, 8, 4, 2, 4, 2] + [4, 8, 6, 4, 8, 4, 6]
    else if i == 14 then [2, 6, 6, 4, 2, 4, 6] + [8, 4, 2, 4, 2, 10, 2] + [10, 2, 4, 2, 4, 6, 2]
    else if i == 15 then [10, 2, 4, 6, 8, 6, 4] + [2, 6, 4, 6, 8, 4, 6] + [2, 4, 8, 6, 4, 6, 2]
    else if i == 16 then [4, 6, 2, 6, 6, 4, 6] + [6, 2, 6, 6, 4, 2, 10] + [2, 10, 2, 4, 2, 4, 6]
    else if i == 17 then [2, 6, 4, 2, 10, 6, 2] + [6, 4, 2, 6, 4, 6, 8] + [4, 2, 4, 2, 12, 6, 4]
    else if i == 18 then [6, 2, 4, 6, 2, 12, 4] + [2, 4, 8, 6, 4, 2, 4] + [2, 10, 2, 10, 6, 2, 4]
    else if i == 19 then [6, 2, 6, 4, 2, 4, 6] + [6, 2, 6, 4, 2, 10, 6] + [8, 6, 4, 2, 4, 8, 6]
    else if i == 20 then [4, 6, 2, 4, 6, 2, 6] + [6, 6, 4, 6, 2, 6, 4] + [2, 4, 2, 10, 12, 2, 4]
    else if i == 21 then [2, 10, 2, 6, 4, 2, 4] + [6, 6, 2, 10, 2, 6, 4] + [14, 4, 2, 4, 2, 4, 8]
    else [6, 4, 6, 2, 4, 6, 2] + [6, 6, 4, 2, 4, 6, 2] + [6, 4, 2, 4, 12, 2, 12]
  }

  /** The divisor at which a row starts in the first turn. */
  function Start(i: nat): (d: nat)
    requires i <= ROWS
  {
    if i == 0 then 5
    else if i == 1 then 89
    else if i == 2 then 193
    else if i == 3 then 293
    else if i == 4 then 397
    else if i == 5 then 499
    else if i == 6 then 601
    else if i == 7 then 701
    else if i == 8 then 809
    else if i == 9 then 901
    else if i == 10 then 1007
    else if i == 11 then 1097
    else if i == 12 then 1213
    else if i == 13 then 1303
    else if i == 14 then 1409
    else if i == 15 then 1501
    else if i == 16 then 1609
    else if i == 17 then 1709
    else if i == 18 then 1811
    else if i == 19 then 1913
    else if i == 20 then 2017
    else if i == 21 then 2117
    else if i == 22 then 2221
    else 2323
  }

  predicate Multiple(x: nat)
  {
    x % 3 == 0 || x % 5 == 0 || x % 7 == 0 || x % 11 == 0
  }

  /** The n numbers x + 2, x + 4, ... are multiples of 3, 5, 7 or 11. */
  predicate Gap(x: nat, n: nat)
    decreases n
  {
    n == 0 || (Multiple(x + 2) && Gap(x + 2, n - 1))
  }

  /** An even increment from d that passes over nothing but multiples. */
  predicate Spoke(d: nat, inc: nat)
  {
    Field(inc) && Gap(d, inc / 2 - 1)
  }

  /** What a field of a word can hold: an even number from 2 to 14. */
  predicate Field(inc: nat)
  {
    2 <= inc <= 14 && inc % 2 == 0
  }

  /** Increments that lead from divisor d to divisor e and pass over nothing but multiples. */
  predicate Rolls(d: nat, incs: seq<nat>, e: nat)
    decreases |incs|
  {
    if incs == [] then d == e else Spoke(d, incs[0]) && Rolls(d + incs[0], incs[1..], e)
  }

  lemma RollsCons(d: nat, inc: nat, rest: seq<nat>, e: nat)
    requires Spoke(d, inc) && Rolls(d + inc, rest, e)
    ensures Rolls(d, [inc] + rest, e)
  {
    hide Spoke;
    assert ([inc] + rest)[1..] == rest;
  }

  lemma {:induction false} RollsJoin(d: nat, a: seq<nat>, m: nat, b: seq<nat>, e: nat)
    requires Rolls(d, a, m) && Rolls(m, b, e)
    ensures Rolls(d, a + b, e)
    decreases |a|
  {
    hide Spoke;
    if a == [] {
      assert a + b == b;
    } else {
      assert (a + b)[1..] == a[1..] + b;
      RollsJoin(d + a[0], a[1..], m, b, e);
    }
  }

  lemma RollsSeven(p0: nat, p1: nat, p2: nat, p3: nat, p4: nat, p5: nat, p6: nat, p7: nat,
                   a: nat, b: nat, c: nat, d: nat, e: nat, f: nat, g: nat)
    requires p1 == p0 + a && p2 == p1 + b && p3 == p2 + c && p4 == p3 + d && p5 == p4 + e && p6 == p5 + f && p7 == p6 + g
    requires Field(a) && Field(b) && Field(c) && Field(d) && Field(e) && Field(f) && Field(g)
    requires Gap(p0, a / 2 - 1) && Gap(p1, b / 2 - 1) && Gap(p2, c / 2 - 1) && Gap(p3, d / 2 - 1)
    requires Gap(p4, e / 2 - 1) && Gap(p5, f / 2 - 1) && Gap(p6, g / 2 - 1)
    ensures Rolls(p0, [a, b, c, d, e, f, g], p7)
  {
    hide Gap, Field;
    assert Rolls(p7, [], p7);
    hide Rolls;
    RollsCons(p6, g, [], p7);
    RollsCons(p5, f, [g], p7);
    RollsCons(p4, e, [f, g], p7);
    RollsCons(p3, d, [e, f, g], p7);
    RollsCons(p2, c, [d, e, f, g], p7);
    RollsCons(p1, b, [c, d, e, f, g], p7);
    RollsCons(p0, a, [b, c, d, e, f, g], p7);
    assert [a] + [b, c, d, e, f, g] == [a, b, c, d, e, f, g] && [b] + [c, d, e, f, g] == [b, c, d, e, f, g];
    assert [c] + [d, e, f, g] == [c, d, e, f, g] && [d] + [e, f, g] == [d, e, f, g] && [e] + [f, g] == [e, f, g];
    assert [f] + [g] == [f, g] && [g] + [] == [g];
  }

  lemma Gaps0()
    ensures Gap(5, 0) && Gap(7, 1) && Gap(11, 0) && Gap(13, 1) && Gap(17, 0) && Gap(19, 1) && Gap(23, 2)
    ensures Gap(29, 0) && Gap(31, 2) && Gap(37, 1) && Gap(41, 0) && Gap(43, 1) && Gap(47, 2) && Gap(53, 2)
    ensures Gap(59, 0) && Gap(61, 2) && Gap(67, 1) && Gap(71, 0) && Gap(73, 2) && Gap(79, 1) && Gap(83, 2)
  {
  }

  lemma Row0()
    ensures Rolls(5, [2, 4, 2, 4, 2, 4, 6] + [2, 6, 4, 2, 4, 6, 6] + [2, 6, 4, 2, 6, 4, 6], 89)
  {
    hide Gap, Rolls;
    Gaps0();
    RollsSeven(5, 7, 11, 13, 17, 19, 23, 29, 2, 4, 2, 4, 2, 4, 6);
    RollsSeven(29, 31, 37, 41, 43, 47, 53, 59, 2, 6, 4, 2, 4, 6, 6);
    RollsSeven(59, 61, 67, 71, 73, 79, 83, 89, 2, 6, 4, 2, 6, 4, 6);
    RollsJoin(5, [2, 4, 2, 4, 2, 4, 6], 29, [2, 6, 4, 2, 4, 6, 6], 59);
    RollsJoin(5, [2, 4, 2, 4, 2, 4, 6] + [2, 6, 4, 2, 4, 6, 6], 59, [2, 6, 4, 2, 6, 4, 6], 89);
  }

  lemma Gaps1()
    ensures Gap(89, 3) && Gap(97, 1) && Gap(101, 0) && Gap(103, 1) && Gap(107, 0) && Gap(109, 1) && Gap(113, 6)
    ensures Gap(127, 1) && Gap(131, 2) && Gap(137, 0) && Gap(139, 4) && Gap(149, 0) && Gap(151, 2) && Gap(157, 2)
    ensures Gap(163, 1) && Gap(167, 0) && Gap(169, 1) && Gap(173, 2) && Gap(179, 0) && Gap(181, 4) && Gap(191, 0)
  {
  }

  lemma Row1()
    ensures Rolls(89, [8, 4, 2, 4, 2, 4, 14] + [4, 6, 2, 10, 2, 6, 6] + [4, 2, 4, 6, 2, 10, 2], 193)
  {
    hide Gap, Rolls;
    Gaps1();
    RollsSeven(89, 97, 101, 103, 107, 109, 113, 127, 8, 4, 2, 4, 2, 4, 14);
    RollsSeven(127, 131, 137, 139, 149, 151, 157, 163, 4, 6, 2, 10, 2, 6, 6);
    RollsSeven(163, 167, 169, 173, 179, 181, 191, 193, 4, 2, 4, 6, 2, 10, 2);
    RollsJoin(89, [8, 4, 2, 4, 2, 4, 14], 127, [4, 6, 2, 10, 2, 6, 6], 163);
    RollsJoin(89, [8, 4, 2, 4, 2, 4, 14] + [4, 6, 2, 10, 2, 6, 6], 163, [4, 2, 4, 6, 2, 10, 2], 193);
  }

  lemma Gaps2()
    ensures Gap(193, 1) && Gap(197, 0) && Gap(199, 5) && Gap(211, 4) && Gap(221, 0) && Gap(223, 1) && Gap(227, 0)
    ensures Gap(229, 1) && Gap(233, 2) && Gap(239, 0) && Gap(241, 2) && Gap(247, 1) && Gap(251, 2) && Gap(257, 2)
    ensures Gap(263, 2) && Gap(269, 0) && Gap(271, 2) && Gap(277, 1) && Gap(281, 0) && Gap(283, 2) && Gap(289, 1)
  {
  }

  lemma Row2()
    ensures Rolls(193, [4, 2, 12, 10, 2, 4, 2] + [4, 6, 2, 6, 4, 6, 6] + [6, 2, 6, 4, 2, 6, 4], 293)
  {
    hide Gap, Rolls;
    Gaps2();
    RollsSeven(193, 197, 199, 211, 221, 223, 227, 229, 4, 2, 12, 10, 2, 4, 2);
    RollsSeven(229, 233, 239, 241, 247, 251, 257, 263, 4, 6, 2, 6, 4, 6, 6);
    RollsSeven(263, 269, 271, 277, 281, 283, 289, 293, 6, 2, 6, 4, 2, 6, 4);
    RollsJoin(193, [4, 2, 12, 10, 2, 4, 2], 229, [4, 6, 2, 6, 4, 6, 6], 263);
    RollsJoin(193, [4, 2, 12, 10, 2, 4, 2] + [4, 6, 2, 6, 4, 6, 6], 263, [6, 2, 6, 4, 2, 6, 4], 293);
  }

  lemma Gaps3()
    ensures Gap(293, 2) && Gap(299, 3) && Gap(307, 1) && Gap(311, 0) && Gap(313, 1) && Gap(317, 2) && Gap(323, 3)
    ensures Gap(331, 2) && Gap(337, 4) && Gap(347, 0) && Gap(349, 1) && Gap(353, 2) && Gap(359, 0) && Gap(361, 2)
    ensures Gap(367, 2) && Gap(373, 1) && Gap(377, 0) && Gap(379, 1) && Gap(383, 2) && Gap(389, 0) && Gap(391, 2)
  {
  }

  lemma Row3()
    ensures Rolls(293, [6, 8, 4, 2, 4, 6, 8] + [6, 10, 2, 4, 6, 2, 6] + [6, 4, 2, 4, 6, 2, 6], 397)
  {
    hide Gap, Rolls;
    Gaps3();
    RollsSeven(293, 299, 307, 311, 313, 317, 323, 331, 6, 8, 4, 2, 4, 6, 8);
    RollsSeven(331, 337, 347, 349, 353, 359, 361, 367, 6, 10, 2, 4, 6, 2, 6);
    RollsSeven(367, 373, 377, 379, 383, 389, 391, 397, 6, 4, 2, 4, 6, 2, 6);
    RollsJoin(293, [6, 8, 4, 2, 4, 6, 8], 331, [6, 10, 2, 4, 6, 2, 6], 367);
    RollsJoin(293, [6, 8, 4, 2, 4, 6, 8] + [6, 10, 2, 4, 6, 2, 6], 367, [6, 4, 2, 4, 6, 2, 6], 397);
  }

  lemma Gaps4()
    ensures Gap(397, 1) && Gap(401, 0) && Gap(403, 2) && Gap(409, 4) && Gap(419, 0) && Gap(421, 4) && Gap(431, 0)
    ensures Gap(433, 1) && Gap(437, 0) && Gap(439, 1) && Gap(443, 2) && Gap(449, 3) && Gap(457, 1) && Gap(461, 0)
    ensures Gap(463, 1) && Gap(467, 5) && Gap(479, 0) && Gap(481, 2) && Gap(487, 1) && Gap(491, 0) && Gap(493, 2)
  {
  }

  lemma Row4()
    ensures Rolls(397, [4, 2, 6, 10, 2, 10, 2] + [4, 2, 4, 6, 8, 4, 2] + [4, 12, 2, 6, 4, 2, 6], 499)
  {
    hide Gap, Rolls;
    Gaps4();
    RollsSeven(397, 401, 403, 409, 419, 421, 431, 433, 4, 2, 6, 10, 2, 10, 2);
    RollsSeven(433, 437, 439, 443, 449, 457, 461, 463, 4, 2, 4, 6, 8, 4, 2);
    RollsSeven(463, 467, 479, 481, 487, 491, 493, 499, 4, 12, 2, 6, 4, 2, 6);
    RollsJoin(397, [4, 2, 6, 10, 2, 10, 2], 433, [4, 2, 4, 6, 8, 4, 2], 463);
    RollsJoin(397, [4, 2, 6, 10, 2, 10, 2] + [4, 2, 4, 6, 8, 4, 2], 463, [4, 12, 2, 6, 4, 2, 6], 499);
  }

  lemma Gaps5()
    ensures Gap(499, 1) && Gap(503, 2) && Gap(509, 5) && Gap(521, 0) && Gap(523, 1) && Gap(527, 0) && Gap(529, 1)
    ensures Gap(533, 3) && Gap(541, 2) && Gap(547, 1) && Gap(551, 2) && Gap(557, 0) && Gap(559, 1) && Gap(563, 2)
    ensures Gap(569, 0) && Gap(571, 2) && Gap(577, 4) && Gap(587, 0) && Gap(589, 1) && Gap(593, 2) && Gap(599, 0)
  {
  }

  lemma Row5()
    ensures Rolls(499, [4, 6, 12, 2, 4, 2, 4] + [8, 6, 4, 6, 2, 4, 6] + [2, 6, 10, 2, 4, 6, 2], 601)
  {
    hide Gap, Rolls;
    Gaps5();
    RollsSeven(499, 503, 509, 521, 523, 527, 529, 533, 4, 6, 12, 2, 4, 2, 4);
    RollsSeven(533, 541, 547, 551, 557, 559, 563, 569, 8, 6, 4, 6, 2, 4, 6);
    RollsSeven(569, 571, 577, 587, 589, 593, 599, 601, 2, 6, 10, 2, 4, 6, 2);
    RollsJoin(499, [4, 6, 12, 2, 4, 2, 4], 533, [8, 6, 4, 6, 2, 4, 6], 569);
    RollsJoin(499, [4, 6, 12, 2, 4, 2, 4] + [8, 6, 4, 6, 2, 4, 6], 569, [2, 6, 10, 2, 4, 6, 2], 601);
  }

  lemma Gaps6()
    ensures Gap(601, 2) && Gap(607, 1) && Gap(611, 0) && Gap(613, 1) && Gap(617, 0) && Gap(619, 4) && Gap(629, 0)
    ensures Gap(631, 4) && Gap(641, 0) && Gap(643, 1) && Gap(647, 2) && Gap(653, 2) && Gap(659, 0) && Gap(661, 2)
    ensures Gap(667, 2) && Gap(673, 1) && Gap(677, 2) && Gap(683, 2) && Gap(689, 0) && Gap(691, 2) && Gap(697, 1)
  {
  }

  lemma Row6()
    ensures Rolls(601, [6, 4, 2, 4, 2, 10, 2] + [10, 2, 4, 6, 6, 2, 6] + [6, 4, 6, 6, 2, 6, 4], 701)
  {
    hide Gap, Rolls;
    Gaps6();
    RollsSeven(601, 607, 611, 613, 617, 619, 629, 631, 6, 4, 2, 4, 2, 10, 2);
    RollsSeven(631, 641, 643, 647, 653, 659, 661, 667, 10, 2, 4, 6, 6, 2, 6);
    RollsSeven(667, 673, 677, 683, 689, 691, 697, 701, 6, 4, 6, 6, 2, 6, 4);
    RollsJoin(601, [6, 4, 2, 4, 2, 10, 2], 631, [10, 2, 4, 6, 6, 2, 6], 667);
    RollsJoin(601, [6, 4, 2, 4, 2, 10, 2] + [10, 2, 4, 6, 6, 2, 6], 667, [6, 4, 6, 6, 2, 6, 4], 701);
  }

  lemma Gaps7()
    ensures Gap(701, 0) && Gap(703, 2) && Gap(709, 1) && Gap(713, 2) && Gap(719, 3) && Gap(727, 1) && Gap(731, 0)
    ensures Gap(733, 2) && Gap(739, 1) && Gap(743, 3) && Gap(751, 2) && Gap(757, 1) && Gap(761, 2) && Gap(767, 0)
    ensures Gap(769, 1) && Gap(773, 2) && Gap(779, 3) && Gap(787, 2) && Gap(793, 1) && Gap(797, 0) && Gap(799, 4)
  {
  }

  lemma Row7()
    ensures Rolls(701, [2, 6, 4, 6, 8, 4, 2] + [6, 4, 8, 6, 4, 6, 2] + [4, 6, 8, 6, 4, 2, 10], 809)
  {
    hide Gap, Rolls;
    Gaps7();
    RollsSeven(701, 703, 709, 713, 719, 727, 731, 733, 2, 6, 4, 6, 8, 4, 2);
    RollsSeven(733, 739, 743, 751, 757, 761, 767, 769, 6, 4, 8, 6, 4, 6, 2);
    RollsSeven(769, 773, 779, 787, 793, 797, 799, 809, 4, 6, 8, 6, 4, 2, 10);
    RollsJoin(701, [2, 6, 4, 6, 8, 4, 2], 733, [6, 4, 8, 6, 4, 6, 2], 769);
    RollsJoin(701, [2, 6, 4, 6, 8, 4, 2] + [6, 4, 8, 6, 4, 6, 2], 769, [4, 6, 8, 6, 4, 2, 10], 809);
  }

  lemma Gaps8()
    ensures Gap(809, 0) && Gap(811, 2) && Gap(817, 1) && Gap(821, 0) && Gap(823, 1) && Gap(827, 0) && Gap(829, 4)
    ensures Gap(839, 0) && Gap(841, 4) && Gap(851, 0) && Gap(853, 1) && Gap(857, 0) && Gap(859, 1) && Gap(863, 3)
    ensures Gap(871, 2) && Gap(877, 1) && Gap(881, 0) && Gap(883, 1) && Gap(887, 2) && Gap(893, 2) && Gap(899, 0)
  {
  }

  lemma Row8()
    ensures Rolls(809, [2, 6, 4, 2, 4, 2, 10] + [2, 10, 2, 4, 2, 4, 8] + [6, 4, 2, 4, 6, 6, 2], 901)
  {
    hide Gap, Rolls;
    Gaps8();
    RollsSeven(809, 811, 817, 821, 823, 827, 829, 839, 2, 6, 4, 2, 4, 2, 10);
    RollsSeven(839, 841, 851, 853, 857, 859, 863, 871, 2, 10, 2, 4, 2, 4, 8);
    RollsSeven(871, 877, 881, 883, 887, 893, 899, 901, 6, 4, 2, 4, 6, 6, 2);
    RollsJoin(809, [2, 6, 4, 2, 4, 2, 10], 839, [2, 10, 2, 4, 2, 4, 8], 871);
    RollsJoin(809, [2, 6, 4, 2, 4, 2, 10] + [2, 10, 2, 4, 2, 4, 8], 871, [6, 4, 2, 4, 6, 6, 2], 901);
  }

  lemma Gaps9()
    ensures Gap(901, 2) && Gap(907, 1) && Gap(911, 3) && Gap(919, 1) && Gap(923, 2) && Gap(929, 3) && Gap(937, 1)
    ensures Gap(941, 0) && Gap(943, 1) && Gap(947, 0) && Gap(949, 1) && Gap(953, 3) && Gap(961, 2) && Gap(967, 1)
    ensures Gap(971, 2) && Gap(977, 2) && Gap(983, 2) && Gap(989, 0) && Gap(991, 2) && Gap(997, 2) && Gap(1003, 1)
  {
  }

  lemma Row9()
    ensures Rolls(901, [6, 4, 8, 4, 6, 8, 4] + [2, 4, 2, 4, 8, 6, 4] + [6, 6, 6, 2, 6, 6, 4], 1007)
  {
    hide Gap, Rolls;
    Gaps9();
    RollsSeven(901, 907, 911, 919, 923, 929, 937, 941, 6, 4, 8, 4, 6, 8, 4);
    RollsSeven(941, 943, 947, 949, 953, 961, 967, 971, 2, 4, 2, 4, 8, 6, 4);
    RollsSeven(971, 977, 983, 989, 991, 997, 1003, 1007, 6, 6, 6, 2, 6, 6, 4);
    RollsJoin(901, [6, 4, 8, 4, 6, 8, 4], 941, [2, 4, 2, 4, 8, 6, 4], 971);
    RollsJoin(901, [6, 4, 8, 4, 6, 8, 4] + [2, 4, 2, 4, 8, 6, 4], 971, [6, 6, 6, 2, 6, 6, 4], 1007);
  }

  lemma Gaps10()
    ensures Gap(1007, 0) && Gap(1009, 1) && Gap(1013, 2) && Gap(1019, 0) && Gap(1021, 2) && Gap(1027, 1) && Gap(1031, 0)
    ensures Gap(1033, 1) && Gap(1037, 0) && Gap(1039, 4) && Gap(1049, 0) && Gap(1051, 4) && Gap(1061, 0) && Gap(1063, 2)
    ensures Gap(1069, 1) && Gap(1073, 2) && Gap(1079, 0) && Gap(1081, 2) && Gap(1087, 1) && Gap(1091, 0) && Gap(1093, 1)
  {
  }

  lemma Row10()
    ensures Rolls(1007, [2, 4, 6, 2, 6, 4, 2] + [4, 2, 10, 2, 10, 2, 6] + [4, 6, 2, 6, 4, 2, 4], 1097)
  {
    hide Gap, Rolls;
    Gaps10();
    RollsSeven(1007, 1009, 1013, 1019, 1021, 1027, 1031, 1033, 2, 4, 6, 2, 6, 4, 2);
    RollsSeven(1033, 1037, 1039, 1049, 1051, 1061, 1063, 1069, 4, 2, 10, 2, 10, 2, 6);
    RollsSeven(1069, 1073, 1079, 1081, 1087, 1091, 1093, 1097, 4, 6, 2, 6, 4, 2, 4);
    RollsJoin(1007, [2, 4, 6, 2, 6, 4, 2], 1033, [4, 2, 10, 2, 10, 2, 6], 1069);
    RollsJoin(1007, [2, 4, 6, 2, 6, 4, 2] + [4, 2, 10, 2, 10, 2, 6], 1069, [4, 6, 2, 6, 4, 2, 4], 1097);
  }

  lemma Gaps11()
    ensures Gap(1097, 2) && Gap(1103, 2) && Gap(1109, 3) && Gap(1117, 1) && Gap(1121, 0) && Gap(1123, 2) && Gap(1129, 4)
    ensures Gap(1139, 3) && Gap(1147, 1) && Gap(1151, 0) && Gap(1153, 1) && Gap(1157, 0) && Gap(1159, 1) && Gap(1163, 3)
    ensures Gap(1171, 4) && Gap(1181, 2) && Gap(1187, 0) && Gap(1189, 1) && Gap(1193, 3) && Gap(1201, 2) && Gap(1207, 2)
  {
  }

  lemma Row11()
    ensures Rolls(1097, [6, 6, 8, 4, 2, 6, 10] + [8, 4, 2, 4, 2, 4, 8] + [10, 6, 2, 4, 8, 6, 6], 1213)
  {
    hide Gap, Rolls;
    Gaps11();
    RollsSeven(1097, 1103, 1109, 1117, 1121, 1123, 1129, 1139, 6, 6, 8, 4, 2, 6, 10);
    RollsSeven(1139, 1147, 1151, 1153, 1157, 1159, 1163, 1171, 8, 4, 2, 4, 2, 4, 8);
    RollsSeven(1171, 1181, 1187, 1189, 1193, 1201, 1207, 1213, 10, 6, 2, 4, 8, 6, 6);
    RollsJoin(1097, [6, 6, 8, 4, 2, 6, 10], 1139, [8, 4, 2, 4, 2, 4, 8], 1171);
    RollsJoin(1097, [6, 6, 8, 4, 2, 6, 10] + [8, 4, 2, 4, 2, 4, 8], 1171, [10, 6, 2, 4, 8, 6, 6], 1213);
  }

  lemma Gaps12()
    ensures Gap(1213, 1) && Gap(1217, 0) && Gap(1219, 1) && Gap(1223, 2) && Gap(1229, 0) && Gap(1231, 2) && Gap(1237, 1)
    ensures Gap(1241, 2) && Gap(1247, 0) && Gap(1249, 4) && Gap(1259, 0) && Gap(1261, 4) && Gap(1271, 0) && Gap(1273, 1)
    ensures Gap(1277, 0) && Gap(1279, 1) && Gap(1283, 2) && Gap(1289, 0) && Gap(1291, 2) && Gap(1297, 1) && Gap(1301, 0)
  {
  }

  lemma Row12()
    ensures Rolls(1213, [4, 2, 4, 6, 2, 6, 4] + [6, 2, 10, 2, 10, 2, 4] + [2, 4, 6, 2, 6, 4, 2], 1303)
  {
    hide Gap, Rolls;
    Gaps12();
    RollsSeven(1213, 1217, 1219, 1223, 1229, 1231, 1237, 1241, 4, 2, 4, 6, 2, 6, 4);
    RollsSeven(1241, 1247, 1249, 1259, 1261, 1271, 1273, 1277, 6, 2, 10, 2, 10, 2, 4);
    RollsSeven(1277, 1279, 1283, 1289, 1291, 1297, 1301, 1303, 2, 4, 6, 2, 6, 4, 2);
    RollsJoin(1213, [4, 2, 4, 6, 2, 6, 4], 1241, [6, 2, 10, 2, 10, 2, 4], 1277);
    RollsJoin(1213, [4, 2, 4, 6, 2, 6, 4] + [6, 2, 10, 2, 10, 2, 4], 1277, [2, 4, 6, 2, 6, 4, 2], 1303);
  }

  lemma Gaps13()
    ensures Gap(1303, 1) && Gap(1307, 2) && Gap(1313, 2) && Gap(1319, 0) && Gap(1321, 2) && Gap(1327, 2) && Gap(1333, 2)
    ensures Gap(1339, 1) && Gap(1343, 2) && Gap(1349, 3) && Gap(1357, 1) && Gap(1361, 0) && Gap(1363, 1) && Gap(1367, 0)
    ensures Gap(1369, 1) && Gap(1373, 3) && Gap(1381, 2) && Gap(1387, 1) && Gap(1391, 3) && Gap(1399, 1) && Gap(1403, 2)
  {
  }

  lemma Row13()
    ensures Rolls(1303, [4, 6, 6, 2, 6, 6, 6] + [4, 6, 8, 4, 2, 4, 2] + [4, 8, 6, 4, 8, 4, 6], 1409)
  {
    hide Gap, Rolls;
    Gaps13();
    RollsSeven(1303, 1307, 1313, 1319, 1321, 1327, 1333, 1339, 4, 6, 6, 2, 6, 6, 6);
    RollsSeven(1339, 1343, 1349, 1357, 1361, 1363, 1367, 1369, 4, 6, 8, 4, 2, 4, 2);
    RollsSeven(1369, 1373, 1381, 1387, 1391, 1399, 1403, 1409, 4, 8, 6, 4, 8, 4, 6);
    RollsJoin(1303, [4, 6, 6, 2, 6, 6, 6], 1339, [4, 6, 8, 4, 2, 4, 2], 1369);
    RollsJoin(1303, [4, 6, 6, 2, 6, 6, 6] + [4, 6, 8, 4, 2, 4, 2], 1369, [4, 8, 6, 4, 8, 4, 6], 1409);
  }

  lemma Gaps14()
    ensures Gap(1409, 0) && Gap(1411, 2) && Gap(1417, 2) && Gap(1423, 1) && Gap(1427, 0) && Gap(1429, 1) && Gap(1433, 2)
    ensures Gap(1439, 3) && Gap(1447, 1) && Gap(1451, 0) && Gap(1453, 1) && Gap(1457, 0) && Gap(1459, 4) && Gap(1469, 0)
    ensures Gap(1471, 4) && Gap(1481, 0) && Gap(1483, 1) && Gap(1487, 0) && Gap(1489, 1) && Gap(1493, 2) && Gap(1499, 0)
  {
  }

  lemma Row14()
    ensures Rolls(1409, [2, 6, 6, 4, 2, 4, 6] + [8, 4, 2, 4, 2, 10, 2] + [10, 2, 4, 2, 4, 6, 2], 1501)
  {
    hide Gap, Rolls;
    Gaps14();
    RollsSeven(1409, 1411, 1417, 1423, 1427, 1429, 1433, 1439, 2, 6, 6, 4, 2, 4, 6);
    RollsSeven(1439, 1447, 1451, 1453, 1457, 1459, 1469, 1471, 8, 4, 2, 4, 2, 10, 2);
    RollsSeven(1471, 1481, 1483, 1487, 1489, 1493, 1499, 1501, 10, 2, 4, 2, 4, 6, 2);
    RollsJoin(1409, [2, 6, 6, 4, 2, 4, 6], 1439, [8, 4, 2, 4, 2, 10, 2], 1471);
    RollsJoin(1409, [2, 6, 6, 4, 2, 4, 6] + [8, 4, 2, 4, 2, 10, 2], 1471, [10, 2, 4, 2, 4, 6, 2], 1501);
  }

  lemma Gaps15()
    ensures Gap(1501, 4) && Gap(1511, 0) && Gap(1513, 1) && Gap(1517, 2) && Gap(1523, 3) && Gap(1531, 2) && Gap(1537, 1)
    ensures Gap(1541, 0) && Gap(1543, 2) && Gap(1549, 1) && Gap(1553, 2) && Gap(1559, 3) && Gap(1567, 1) && Gap(1571, 2)
    ensures Gap(1577, 0) && Gap(1579, 1) && Gap(1583, 3) && Gap(1591, 2) && Gap(1597, 1) && Gap(1601, 2) && Gap(1607, 0)
  {
  }

  lemma Row15()
    ensures Rolls(1501, [10, 2, 4, 6, 8, 6, 4] + [2, 6, 4, 6, 8, 4, 6] + [2, 4, 8, 6, 4, 6, 2], 1609)
  {
    hide Gap, Rolls;
    Gaps15();
    RollsSeven(1501, 1511, 1513, 1517, 1523, 1531, 1537, 1541, 10, 2, 4, 6, 8, 6, 4);
    RollsSeven(1541, 1543, 1549, 1553, 1559, 1567, 1571, 1577, 2, 6, 4, 6, 8, 4, 6);
    RollsSeven(1577, 1579, 1583, 1591, 1597, 1601, 1607, 1609, 2, 4, 8, 6, 4, 6, 2);
    RollsJoin(1501, [10, 2, 4, 6, 8, 6, 4], 1541, [2, 6, 4, 6, 8, 4, 6], 1577);
    RollsJoin(1501, [10, 2, 4, 6, 8, 6, 4] + [2, 6, 4, 6, 8, 4, 6], 1577, [2, 4, 8, 6, 4, 6, 2], 1609);
  }

  lemma Gaps16()
    ensures Gap(1609, 1) && Gap(1613, 2) && Gap(1619, 0) && Gap(1621, 2) && Gap(1627, 2) && Gap(1633, 1) && Gap(1637, 2)
    ensures Gap(1643, 2) && Gap(1649, 0) && Gap(1651, 2) && Gap(1657, 2) && Gap(1663, 1) && Gap(1667, 0) && Gap(1669, 4)
    ensures Gap(1679, 0) && Gap(1681, 4) && Gap(1691, 0) && Gap(1693, 1) && Gap(1697, 0) && Gap(1699, 1) && Gap(1703, 2)
  {
  }

  lemma Row16()
    ensures Rolls(1609, [4, 6, 2, 6, 6, 4, 6] + [6, 2, 6, 6, 4, 2, 10] + [2, 10, 2, 4, 2, 4, 6], 1709)
  {
    hide Gap, Rolls;
    Gaps16();
    RollsSeven(1609, 1613, 1619, 1621, 1627, 1633, 1637, 1643, 4, 6, 2, 6, 6, 4, 6);
    RollsSeven(1643, 1649, 1651, 1657, 1663, 1667, 1669, 1679, 6, 2, 6, 6, 4, 2, 10);
    RollsSeven(1679, 1681, 1691, 1693, 1697, 1699, 1703, 1709, 2, 10, 2, 4, 2, 4, 6);
    RollsJoin(1609, [4, 6, 2, 6, 6, 4, 6], 1643, [6, 2, 6, 6, 4, 2, 10], 1679);
    RollsJoin(1609, [4, 6, 2, 6, 6, 4, 6] + [6, 2, 6, 6, 4, 2, 10], 1679, [2, 10, 2, 4, 2, 4, 6], 1709);
  }

  lemma Gaps17()
    ensures Gap(1709, 0) && Gap(1711, 2) && Gap(1717, 1) && Gap(1721, 0) && Gap(1723, 4) && Gap(1733, 2) && Gap(1739, 0)
    ensures Gap(1741, 2) && Gap(1747, 1) && Gap(1751, 0) && Gap(1753, 2) && Gap(1759, 1) && Gap(1763, 2) && Gap(1769, 3)
    ensures Gap(1777, 1) && Gap(1781, 0) && Gap(1783, 1) && Gap(1787, 0) && Gap(1789, 5) && Gap(1801, 2) && Gap(1807, 1)
  {
  }

  lemma Row17()
    ensures Rolls(1709, [2, 6, 4, 2, 10, 6, 2] + [6, 4, 2, 6, 4, 6, 8] + [4, 2, 4, 2, 12, 6, 4], 1811)
  {
    hide Gap, Rolls;
    Gaps17();
    RollsSeven(1709, 1711, 1717, 1721, 1723, 1733, 1739, 1741, 2, 6, 4, 2, 10, 6, 2);
    RollsSeven(1741, 1747, 1751, 1753, 1759, 1763, 1769, 1777, 6, 4, 2, 6, 4, 6, 8);
    RollsSeven(1777, 1781, 1783, 1787, 1789, 1801, 1807, 1811, 4, 2, 4, 2, 12, 6, 4);
    RollsJoin(1709, [2, 6, 4, 2, 10, 6, 2], 1741, [6, 4, 2, 6, 4, 6, 8], 1777);
    RollsJoin(1709, [2, 6, 4, 2, 10, 6, 2] + [6, 4, 2, 6, 4, 6, 8], 1777, [4, 2, 4, 2, 12, 6, 4], 1811);
  }

  lemma Gaps18()
    ensures Gap(1811, 2) && Gap(1817, 0) && Gap(1819, 1) && Gap(1823, 2) && Gap(1829, 0) && Gap(1831, 5) && Gap(1843, 1)
    ensures Gap(1847, 0) && Gap(1849, 1) && Gap(1853, 3) && Gap(1861, 2) && Gap(1867, 1) && Gap(1871, 0) && Gap(1873, 1)
    ensures Gap(1877, 0) && Gap(1879, 4) && Gap(1889, 0) && Gap(1891, 4) && Gap(1901, 2) && Gap(1907, 0) && Gap(1909, 1)
  {
  }

  lemma Row18()
    ensures Rolls(1811, [6, 2, 4, 6, 2, 12, 4] + [2, 4, 8, 6, 4, 2, 4] + [2, 10, 2, 10, 6, 2, 4], 1913)
  {
    hide Gap, Rolls;
    Gaps18();
    RollsSeven(1811, 1817, 1819, 1823, 1829, 1831, 1843, 1847, 6, 2, 4, 6, 2, 12, 4);
    RollsSeven(1847, 1849, 1853, 1861, 1867, 1871, 1873, 1877, 2, 4, 8, 6, 4, 2, 4);
    RollsSeven(1877, 1879, 1889, 1891, 1901, 1907, 1909, 1913, 2, 10, 2, 10, 6, 2, 4);
    RollsJoin(1811, [6, 2, 4, 6, 2, 12, 4], 1847, [2, 4, 8, 6, 4, 2, 4], 1877);
    RollsJoin(1811, [6, 2, 4, 6, 2, 12, 4] + [2, 4, 8, 6, 4, 2, 4], 1877, [2, 10, 2, 10, 6, 2, 4], 1913);
  }

  lemma Gaps19()
    ensures Gap(1913, 2) && Gap(1919, 0) && Gap(1921, 2) && Gap(1927, 1) && Gap(1931, 0) && Gap(1933, 1) && Gap(1937, 2)
    ensures Gap(1943, 2) && Gap(1949, 0) && Gap(1951, 2) && Gap(1957, 1) && Gap(1961, 0) && Gap(1963, 4) && Gap(1973, 2)
    ensures Gap(1979, 3) && Gap(1987, 2) && Gap(1993, 1) && Gap(1997, 0) && Gap(1999, 1) && Gap(2003, 3) && Gap(2011, 2)
  {
  }

  lemma Row19()
    ensures Rolls(1913, [6, 2, 6, 4, 2, 4, 6] + [6, 2, 6, 4, 2, 10, 6] + [8, 6, 4, 2, 4, 8, 6], 2017)
  {
    hide Gap, Rolls;
    Gaps19();
    RollsSeven(1913, 1919, 1921, 1927, 1931, 1933, 1937, 1943, 6, 2, 6, 4, 2, 4, 6);
    RollsSeven(1943, 1949, 1951, 1957, 1961, 1963, 1973, 1979, 6, 2, 6, 4, 2, 10, 6);
    RollsSeven(1979, 1987, 1993, 1997, 1999, 2003, 2011, 2017, 8, 6, 4, 2, 4, 8, 6);
    RollsJoin(1913, [6, 2, 6, 4, 2, 4, 6], 1943, [6, 2, 6, 4, 2, 10, 6], 1979);
    RollsJoin(1913, [6, 2, 6, 4, 2, 4, 6] + [6, 2, 6, 4, 2, 10, 6], 1979, [8, 6, 4, 2, 4, 8, 6], 2017);
  }

  lemma Gaps20()
    ensures Gap(2017, 1) && Gap(2021, 2) && Gap(2027, 0) && Gap(2029, 1) && Gap(2033, 2) && Gap(2039, 0) && Gap(2041, 2)
    ensures Gap(2047, 2) && Gap(2053, 2) && Gap(2059, 1) && Gap(2063, 2) && Gap(2069, 0) && Gap(2071, 2) && Gap(2077, 1)
    ensures Gap(2081, 0) && Gap(2083, 1) && Gap(2087, 0) && Gap(2089, 4) && Gap(2099, 5) && Gap(2111, 0) && Gap(2113, 1)
  {
  }

  lemma Row20()
    ensures Rolls(2017, [4, 6, 2, 4, 6, 2, 6] + [6, 6, 4, 6, 2, 6, 4] + [2, 4, 2, 10, 12, 2, 4], 2117)
  {
    hide Gap, Rolls;
    Gaps20();
    RollsSeven(2017, 2021, 2027, 2029, 2033, 2039, 2041, 2047, 4, 6, 2, 4, 6, 2, 6);
    RollsSeven(2047, 2053, 2059, 2063, 2069, 2071, 2077, 2081, 6, 6, 4, 6, 2, 6, 4);
    RollsSeven(2081, 2083, 2087, 2089, 2099, 2111, 2113, 2117, 2, 4, 2, 10, 12, 2, 4);
    RollsJoin(2017, [4, 6, 2, 4, 6, 2, 6], 2047, [6, 6, 4, 6, 2, 6, 4], 2081);
    RollsJoin(2017, [4, 6, 2, 4, 6, 2, 6] + [6, 6, 4, 6, 2, 6, 4], 2081, [2, 4, 2, 10, 12, 2, 4], 2117);
  }

  lemma Gaps21()
    ensures Gap(2117, 0) && Gap(2119, 4) && Gap(2129, 0) && Gap(2131, 2) && Gap(2137, 1) && Gap(2141, 0) && Gap(2143, 1)
    ensures Gap(2147, 2) && Gap(2153, 2) && Gap(2159, 0) && Gap(2161, 4) && Gap(2171, 0) && Gap(2173, 2) && Gap(2179, 1)
    ensures Gap(2183, 6) && Gap(2197, 1) && Gap(2201, 0) && Gap(2203, 1) && Gap(2207, 0) && Gap(2209, 1) && Gap(2213, 3)
  {
  }

  lemma Row21()
    ensures Rolls(2117, [2, 10, 2, 6, 4, 2, 4] + [6, 6, 2, 10, 2, 6, 4] + [14, 4, 2, 4, 2, 4, 8], 2221)
  {
    hide Gap, Rolls;
    Gaps21();
    RollsSeven(2117, 2119, 2129, 2131, 2137, 2141, 2143, 2147, 2, 10, 2, 6, 4, 2, 4);
    RollsSeven(2147, 2153, 2159, 2161, 2171, 2173, 2179, 2183, 6, 6, 2, 10, 2, 6, 4);
    RollsSeven(2183, 2197, 2201, 2203, 2207, 2209, 2213, 2221, 14, 4, 2, 4, 2, 4, 8);
    RollsJoin(2117, [2, 10, 2, 6, 4, 2, 4], 2147, [6, 6, 2, 10, 2, 6, 4], 2183);
    RollsJoin(2117, [2, 10, 2, 6, 4, 2, 4] + [6, 6, 2, 10, 2, 6, 4], 2183, [14, 4, 2, 4, 2, 4, 8], 2221);
  }

  lemma Gaps22()
    ensures Gap(2221, 2) && Gap(2227, 1) && Gap(2231, 2) && Gap(2237, 0) && Gap(2239, 1) && Gap(2243, 2) && Gap(2249, 0)
    ensures Gap(2251, 2) && Gap(2257, 2) && Gap(2263, 1) && Gap(2267, 0) && Gap(2269, 1) && Gap(2273, 2) && Gap(2279, 0)
    ensures Gap(2281, 2) && Gap(2287, 1) && Gap(2291, 0) && Gap(2293, 1) && Gap(2297, 5) && Gap(2309, 0) && Gap(2311, 5)
  {
  }

  lemma Row22()
    ensures Rolls(2221, [6, 4, 6, 2, 4, 6, 2] + [6, 6, 4, 2, 4, 6, 2] + [6, 4, 2, 4, 12, 2, 12], 2323)
  {
    hide Gap, Rolls;
    Gaps22();
    RollsSeven(2221, 2227, 2231, 2237, 2239, 2243, 2249, 2251, 6, 4, 6, 2, 4, 6, 2);
    RollsSeven(2251, 2257, 2263, 2267, 2269, 2273, 2279, 2281, 6, 6, 4, 2, 4, 6, 2);
    RollsSeven(2281, 2287, 2291, 2293, 2297, 2309, 2311, 2323, 6, 4, 2, 4, 12, 2, 12);
    RollsJoin(2221, [6, 4, 6, 2, 4, 6, 2], 2251, [6, 6, 4, 2, 4, 6, 2], 2281);
    RollsJoin(2221, [6, 4, 6, 2, 4, 6, 2] + [6, 6, 4, 2, 4, 6, 2], 2281, [6, 4, 2, 4, 12, 2, 12], 2323);
  }

  /** Every word's increments roll from its start to the next one's. */
  lemma RowRolls(i: nat)
    requires i < ROWS
    ensures Rolls(Start(i), Increments(i), Start(i + 1)) && |Increments(i)| == 21
  {
    hide Rolls;
    if i == 0 {
      Row0();
    } else if i == 1 {
      Row1();
    } else if i == 2 {
      Row2();
    } else if i == 3 {
      Row3();
    } else if i == 4 {
      Row4();
    } else if i == 5 {
      Row5();
    } else if i == 6 {
      Row6();
    } else if i == 7 {
      Row7();
    } else if i == 8 {
      Row8();
    } else if i == 9 {
      Row9();
    } else if i == 10 {
      Row10();
    } else if i == 11 {
      Row11();
    } else if i == 12 {
      Row12();
    } else if i == 13 {
      Row13();
    } else if i == 14 {
      Row14();
    } else if i == 15 {
      Row15();
    } else if i == 16 {
      Row16();
    } else if i == 17 {
      Row17();
    } else if i == 18 {
      Row18();
    } else if i == 19 {
      Row19();
    } else if i == 20 {
      Row20();
    } else if i == 21 {
      Row21();
    } else if i == 22 {
      Row22();
    }
  }

  // ---- packing ----

  /** Increments packed three bits apart, each as half its value above the lowest bit. */
  function Pack(incs: seq<nat>): (v: nat)
  {
    if incs == [] then 0 else incs[0] + 8 * Pack(incs[1..])
  }

  /** packed_wheel[i] */
  function Packed(i: nat): (v: nat)
    requires i < ROWS
  {
    Pack(Increments(i))
  }

  /** v & 0xe */
  function LowField(v: nat): (e: nat)
  {
    v / 2 % 8 * 2
  }

  /** What is left of a word when some increments are still to come: bit 0 is the top bit of the last field taken. */
  predicate Holds(v: nat, incs: seq<nat>)
  {
    v == Pack(incs) || v == Pack(incs) + 1
  }

  ghost predicate AllFields(incs: seq<nat>)
  {
    forall k :: 0 <= k < |incs| ==> Field(incs[k])
  }

  lemma {:induction false} RollsFields(d: nat, incs: seq<nat>, e: nat)
    requires Rolls(d, incs, e)
    ensures AllFields(incs)
    decreases |incs|
  {
    hide Gap, Field;
    if incs != [] {
      RollsFields(d + incs[0], incs[1..], e);
      assert forall k :: 1 <= k < |incs| ==> incs[k] == incs[1..][k - 1];
    }
  }

  lemma {:induction false} PackEven(incs: seq<nat>)
    requires AllFields(incs)
    ensures Pack(incs) % 2 == 0
    decreases |incs|
  {
    if incs != [] {
      PackEven(incs[1..]);
      assert Field(incs[0]);
    }
  }

  /** The lowest field is the next increment, and shifting by three bits leaves the others. */
  lemma FieldTaken(v: nat, incs: seq<nat>)
    requires AllFields(incs) && Holds(v, incs)
    ensures LowField(v) == if incs == [] then 0 else incs[0]
    ensures incs != [] ==> Holds(v / 8, incs[1..])
  {
    if incs != [] {
      assert Field(incs[0]);
      assert AllFields(incs[1..]);
      PackEven(incs[1..]);
      TakeField(v, incs[0], Pack(incs[1..]) / 2, v - Pack(incs));
    }
  }

  lemma TakeField(v: nat, inc: nat, h: nat, g: nat)
    requires Field(inc) && g <= 1 && v == inc + 16 * h + g
    ensures v / 2 % 8 * 2 == inc && (v / 8 == 2 * h || v / 8 == 2 * h + 1)
  {
    assert v / 2 == 8 * h + inc / 2;
    assert v / 2 % 8 == inc / 2;
  }

  function Pow8(n: nat): (p: nat)
  {
    if n == 0 then 1 else 8 * Pow8(n - 1)
  }

  /** Twenty-one increments fit in 64 bits. */
  lemma {:induction false} PackFits(incs: seq<nat>)
    requires AllFields(incs)
    ensures Pack(incs) + 2 <= 2 * Pow8(|incs|)
    decreases |incs|
  {
    if incs != [] {
      assert Field(incs[0]);
      PackFits(incs[1..]);
    }
  }

  lemma WordFits(i: nat)
    requires i < ROWS
    ensures Packed(i) < 0x1_0000_0000_0000_0000
  {
    hide Rolls, Increments, Start;
    RowRolls(i);
    RollsFields(Start(i), Increments(i), Start(i + 1));
    PackFits(Increments(i));
    EightTo21();
  }

  lemma EightTo21()
    ensures 2 * Pow8(21) == 0x1_0000_0000_0000_0000
  {
    assert Pow8(7) == 2097152;
    assert Pow8(14) == 4398046511104;
  }
}
