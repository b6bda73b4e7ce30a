/**
 The order the allow and deny lists keep addresses in: a comparison of
 position-weighted octet sums over the octets significant on both sides.
 */
module IpOrder {

  /** Octet `i` counts only where `mask[i]` is set; a cleared bit is a "*". */
  datatype Ip = Ip(octets: seq<nat>, mask: seq<bool>)

  ghost predicate IsIp(a: Ip)
  {
    |a.octets| == 16 && |a.mask| == 16 && forall i :: 0 <= i < 16 ==> a.octets[i] < 256
  }

  // ---- the comparison --------------------------------------------------------

  /** What octet `i` adds to the score of `a` in a comparison with `b`. */
  function Contribution(a: Ip, b: Ip, i: nat): (n: int)
    requires IsIp(a) && IsIp(b) && i < 16
  {
    if a.mask[i] && b.mask[i] then (16 - i) * a.octets[i] else 0
  }

  /** The score over the first `n` octets without octets 10 and 11. */
  function Score(a: Ip, b: Ip, n: nat): (s: int)
    requires IsIp(a) && IsIp(b) && n <= 16
  {
    if n == 0 then 0
    else Score(a, b, n - 1) + if n - 1 == 10 || n - 1 == 11 then 0 else Contribution(a, b, n - 1)
  }

  /** The score over all sixteen octets. */
  function Total(a: Ip, b: Ip): (s: int)
    requires IsIp(a) && IsIp(b)
  {
    Score(a, b, 16) + Contribution(a, b, 10) + Contribution(a, b, 11)
  }

  predicate PrefixOctet(o: nat) { o == 0x00 || o == 0xff }

  /** Octets 10 and 11 of both sides could be the front of a v4 address in v6 form. */
  predicate PrefixesMatch(a: Ip, b: Ip)
    requires IsIp(a) && IsIp(b)
  {
    PrefixOctet(a.octets[10]) && PrefixOctet(b.octets[10]) && PrefixOctet(a.octets[11]) && PrefixOctet(b.octets[11])
  }

  predicate Less(a: Ip, b: Ip)
    requires IsIp(a) && IsIp(b)
  {
    !(Score(a, b, 16) == Score(b, a, 16) && PrefixesMatch(a, b)) && Total(a, b) < Total(b, a)
  }

  /** operator<. */
  method Compare(a: Ip, b: Ip) returns (less: bool)
    requires IsIp(a) && IsIp(b)
    ensures less == Less(a, b)
  {
    var aScore, bScore := 0, 0;
    for i := 0 to 16
      invariant aScore == Score(a, b, i) && bScore == Score(b, a, i)
    {
      if i == 10 || i == 11 { continue; }
      aScore, bScore := Accumulate(a, b, i, aScore, bScore);
    }
    if aScore == bScore && PrefixesMatch(a, b) { return false; }
    aScore, bScore := Accumulate(a, b, 10, aScore, bScore);
    aScore, bScore := Accumulate(a, b, 11, aScore, bScore);
    return aScore < bScore;
  }

  /** accumulate_octet_score. */
  method Accumulate(a: Ip, b: Ip, i: nat, aScore: int, bScore: int) returns (a': int, b': int)
    requires IsIp(a) && IsIp(b) && i < 16
    ensures a' == aScore + Contribution(a, b, i) && b' == bScore + Contribution(b, a, i)
  {
    if !(a.mask[i] && b.mask[i]) { return aScore, bScore; }
    return aScore + (16 - i) * a.octets[i], bScore + (16 - i) * b.octets[i];
  }

  // ---- for all pairs -----------------------------------------------------------

  /** Neither is less: what std::set takes for "the same key". */
  predicate Equivalent(a: Ip, b: Ip)
    requires IsIp(a) && IsIp(b)
  {
    !Less(a, b) && !Less(b, a)
  }

  lemma Asymmetric(a: Ip, b: Ip)
    requires IsIp(a) && IsIp(b)
    ensures !(Less(a, b) && Less(b, a)) && !Less(a, a)
  {
  }

  /** Exactly when two addresses are the same key. */
  lemma EquivalentExactly(a: Ip, b: Ip)
    requires IsIp(a) && IsIp(b)
    ensures Equivalent(a, b) <==>
            (Score(a, b, 16) == Score(b, a, 16) && PrefixesMatch(a, b)) || Total(a, b) == Total(b, a)
  {
  }

  /** Wherever both octets count they are equal. */
  predicate Overlap(a: Ip, b: Ip)
    requires IsIp(a) && IsIp(b)
  {
    forall i :: 0 <= i < 16 && a.mask[i] && b.mask[i] ==> a.octets[i] == b.octets[i]
  }

  lemma {:induction false} ScoresAgree(a: Ip, b: Ip, n: nat)
    requires IsIp(a) && IsIp(b) && n <= 16
    requires forall i :: 0 <= i < n && i != 10 && i != 11 && a.mask[i] && b.mask[i] ==> a.octets[i] == b.octets[i]
    ensures Score(a, b, n) == Score(b, a, n)
  {
    if n > 0 { ScoresAgree(a, b, n - 1); }
  }

  /** A wildcard entry is the same key as every address it covers. */
  lemma WildcardCovers(a: Ip, b: Ip)
    requires IsIp(a) && IsIp(b) && Overlap(a, b)
    ensures Equivalent(a, b)
  {
    ScoresAgree(a, b, 16);
  }

  /** The plain, "::"-prefixed and "::ffff:"-prefixed forms of one address are the same key. */
  lemma MappedFormsAgree(a: Ip, b: Ip)
    requires IsIp(a) && IsIp(b) && PrefixesMatch(a, b)
    requires forall i :: 0 <= i < 16 && i != 10 && i != 11 && a.mask[i] && b.mask[i] ==> a.octets[i] == b.octets[i]
    ensures Equivalent(a, b)
  {
    ScoresAgree(a, b, 16);
  }

  // ---- where it is a strict weak order -------------------------------------------

  /** Without wildcards. */
  ghost predicate Full(a: Ip)
  {
    IsIp(a) && forall i :: 0 <= i < 16 ==> a.mask[i]
  }

  /** Fully specified, with octets 10 and 11 zero: plain IPv4 and most short IPv6 addresses. */
  ghost predicate Plain(a: Ip)
  {
    Full(a) && a.octets[10] == 0 && a.octets[11] == 0
  }

  /** The weighted sum of the first `n` octets of one address, without octets 10 and 11. */
  function Weighted(octets: seq<nat>, n: nat): (s: int)
    requires |octets| == 16 && n <= 16
  {
    if n == 0 then 0
    else Weighted(octets, n - 1) + if n - 1 == 10 || n - 1 == 11 then 0 else (16 - (n - 1)) * octets[n - 1]
  }

  lemma {:induction false} ScoreIsWeighted(a: Ip, b: Ip, n: nat)
    requires Full(a) && Full(b) && n <= 16
    ensures Score(a, b, n) == Weighted(a.octets, n)
  {
    if n > 0 { ScoreIsWeighted(a, b, n - 1); }
  }

  /** The sum that octets 10 and 11 add. */
  function PrefixSum(a: Ip): int
    requires IsIp(a)
  {
    6 * a.octets[10] + 5 * a.octets[11]
  }

  lemma FullTotals(a: Ip, b: Ip)
    requires Full(a) && Full(b)
    ensures Score(a, b, 16) == Weighted(a.octets, 16) && Total(a, b) == Weighted(a.octets, 16) + PrefixSum(a)
  {
    ScoreIsWeighted(a, b, 16);
  }

  /** Octets 10 and 11. */
  function Pair(a: Ip): (p: (nat, nat))
    requires IsIp(a)
  {
    (a.octets[10], a.octets[11])
  }

  predicate PrefixPair(p: (nat, nat)) { PrefixOctet(p.0) && PrefixOctet(p.1) }

  /** The full addresses whose octets 10 and 11 are one of these pairs. */
  ghost predicate InClass(a: Ip, pairs: set<(nat, nat)>) { Full(a) && Pair(a) in pairs }

  /** At most one of the pairs can be read as the front of a mapped address. */
  ghost predicate OneMapped(pairs: set<(nat, nat)>)
  {
    forall p, q :: p in pairs && q in pairs && PrefixPair(p) && PrefixPair(q) ==> p == q
  }

  /** The weighted sum of all sixteen octets. */
  function Sum(a: Ip): (s: int)
    requires IsIp(a)
  {
    Weighted(a.octets, 16) + PrefixSum(a)
  }

  /** On such a class the comparison is the order of the weighted sums. */
  lemma ClassOrder(pairs: set<(nat, nat)>, a: Ip, b: Ip)
    requires OneMapped(pairs) && InClass(a, pairs) && InClass(b, pairs)
    ensures Less(a, b) <==> Sum(a) < Sum(b)
    ensures Equivalent(a, b) <==> Sum(a) == Sum(b)
  {
    FullTotals(a, b);
    FullTotals(b, a);
    hide Weighted, Score;
    if PrefixesMatch(a, b) { assert Pair(a) == Pair(b); }
  }

  ghost predicate StrictWeakOn(pairs: set<(nat, nat)>)
  {
    forall a: Ip, b: Ip, c: Ip :: InClass(a, pairs) && InClass(b, pairs) && InClass(c, pairs) ==>
      (Less(a, b) && Less(b, c) ==> Less(a, c)) && (Equivalent(a, b) && Equivalent(b, c) ==> Equivalent(a, c))
  }

  /**
   The comparison is a strict weak order on a class of full addresses exactly when the class has one mapped pair at
   most.
   */
  lemma StrictWeakExactly(pairs: set<(nat, nat)>)
    ensures StrictWeakOn(pairs) <==> OneMapped(pairs)
  {
    if OneMapped(pairs) {
      forall a: Ip, b: Ip, c: Ip | InClass(a, pairs) && InClass(b, pairs) && InClass(c, pairs)
        ensures Less(a, b) && Less(b, c) ==> Less(a, c)
        ensures Equivalent(a, b) && Equivalent(b, c) ==> Equivalent(a, c)
      {
        hide InClass, OneMapped, Less, Equivalent;
        ClassOrder(pairs, a, b);
        ClassOrder(pairs, b, c);
        ClassOrder(pairs, a, c);
      }
    } else {
      var p, q :| p in pairs && q in pairs && PrefixPair(p) && PrefixPair(q) && p != q;
      var below := 6 * p.0 + 5 * p.1 < 6 * q.0 + 5 * q.1;
      var lo, hi := if below then p else q, if below then q else p;
      TwoMappedPairs(pairs, lo, hi);
    }
  }

  /** With two, an address of the first kind lies strictly between two that are equivalent. */
  lemma TwoMappedPairs(pairs: set<(nat, nat)>, p: (nat, nat), q: (nat, nat))
    requires p in pairs && q in pairs && PrefixPair(p) && PrefixPair(q) && 6 * p.0 + 5 * p.1 < 6 * q.0 + 5 * q.1
    ensures !StrictWeakOn(pairs)
  {
    hide Score, Weighted, Low, Total;
    var a, c, b := Low(p, 0), Low(p, 1), Low(q, 0);
    LowSum(p, 0);
    LowSum(p, 1);
    LowSum(q, 0);
    FullTotals(a, b);
    FullTotals(b, a);
    FullTotals(a, c);
    FullTotals(c, a);
    FullTotals(b, c);
    FullTotals(c, b);
    assert Less(a, c) && Less(c, b) && !Less(a, b);
    assert InClass(a, pairs) && InClass(b, pairs) && InClass(c, pairs);
  }

  /** All zero except octets 10, 11 and 15. */
  function Low(p: (nat, nat), last: nat): (a: Ip)
    requires p.0 < 256 && p.1 < 256 && last < 256
    ensures IsIp(a)
  {
    Ip([0, 0, 0, 0, 0, 0, 0, 0, 0, 0, p.0, p.1, 0, 0, 0, last],
       [true, true, true, true, true, true, true, true, true, true, true, true, true, true, true, true])
  }

  lemma LowSum(p: (nat, nat), last: nat)
    requires p.0 < 256 && p.1 < 256 && last < 256
    ensures Full(Low(p, last)) && Pair(Low(p, last)) == p && Weighted(Low(p, last).octets, 16) == last
  {
    LeadingZeros(Low(p, last).octets, 15);
  }

  /** On plain addresses the comparison is the order of the weighted sums. */
  lemma PlainOrder(a: Ip, b: Ip)
    requires Plain(a) && Plain(b)
    ensures Less(a, b) <==> Weighted(a.octets, 16) < Weighted(b.octets, 16)
    ensures Equivalent(a, b) <==> Weighted(a.octets, 16) == Weighted(b.octets, 16)
  {
    ClassOrder({(0, 0)}, a, b);
  }

  /** So on them it is a strict weak order. */
  lemma PlainStrictWeak(a: Ip, b: Ip, c: Ip)
    requires Plain(a) && Plain(b) && Plain(c)
    ensures Less(a, b) && Less(b, c) ==> Less(a, c)
    ensures Equivalent(a, b) && Equivalent(b, c) ==> Equivalent(a, c)
  {
    hide Less, Equivalent;
    StrictWeakExactly({(0, 0)});
    assert InClass(a, {(0, 0)}) && InClass(b, {(0, 0)}) && InClass(c, {(0, 0)});
  }

  // ---- and where it is not -----------------------------------------------------

  /** Changing the last octet moves the sum by as much. */
  lemma LastOctet(octets: seq<nat>, v: nat)
    requires |octets| == 16
    ensures Weighted(octets[15 := v], 16) == Weighted(octets, 16) - octets[15] + v
  {
    WeightedFront(octets, octets[15 := v], 15);
  }

  lemma {:induction false} WeightedFront(s: seq<nat>, t: seq<nat>, n: nat)
    requires |s| == 16 && |t| == 16 && n <= 16 && forall i :: 0 <= i < n && i != 10 && i != 11 ==> s[i] == t[i]
    ensures Weighted(s, n) == Weighted(t, n)
  {
    if n > 0 { WeightedFront(s, t, n - 1); }
  }

  /**
   Any two fully specified addresses that are one key only through the mapped
   rule have a third strictly between them, so lists that mix mapped and
   unmapped forms are never in a strict weak order.
   */
  lemma MappedRuleBreaksTheOrder(a: Ip, b: Ip) returns (c: Ip)
    requires Full(a) && Full(b) && PrefixesMatch(a, b)
    requires Weighted(a.octets, 16) == Weighted(b.octets, 16) && PrefixSum(a) < PrefixSum(b)
    ensures Full(c) && Equivalent(a, b) && Less(a, c) && Less(c, b)
  {
    if a.octets[15] < 255 {
      c := Ip(a.octets[15 := a.octets[15] + 1], a.mask);
      LastOctet(a.octets, a.octets[15] + 1);
    } else {
      var octets := a.octets[10 := b.octets[10]][11 := b.octets[11]];
      c := Ip(octets[15 := 254], a.mask);
      LastOctet(octets, 254);
      WeightedFront(a.octets, octets, 16);
    }
    FullTotals(a, b);
    FullTotals(b, a);
    FullTotals(a, c);
    FullTotals(c, a);
    FullTotals(b, c);
    FullTotals(c, b);
  }

  /** Octets 12 to 15 given, the rest zero except octets 10 and 11. */
  function Address(p: nat, o12: nat, o13: nat, o14: nat, o15: nat): (a: Ip)
    requires p < 256 && o12 < 256 && o13 < 256 && o14 < 256 && o15 < 256
    ensures IsIp(a)
  {
    Ip([0, 0, 0, 0, 0, 0, 0, 0, 0, 0, p, p, o12, o13, o14, o15],
       [true, true, true, true, true, true, true, true, true, true, true, true, true, true, true, true])
  }

  lemma {:induction false} LeadingZeros(octets: seq<nat>, n: nat)
    requires |octets| == 16 && n <= 16 && forall i :: 0 <= i < n && i != 10 && i != 11 ==> octets[i] == 0
    ensures Weighted(octets, n) == 0
  {
    if n > 0 { LeadingZeros(octets, n - 1); }
  }

  lemma AddressWeight(p: nat, o12: nat, o13: nat, o14: nat, o15: nat)
    requires p < 256 && o12 < 256 && o13 < 256 && o14 < 256 && o15 < 256
    ensures Weighted(Address(p, o12, o13, o14, o15).octets, 16) == 4 * o12 + 3 * o13 + 2 * o14 + o15
  {
    var octets := Address(p, o12, o13, o14, o15).octets;
    LeadingZeros(octets, 12);
    assert Weighted(octets, 13) == 4 * o12;
    assert Weighted(octets, 14) == 4 * o12 + 3 * o13;
    assert Weighted(octets, 15) == 4 * o12 + 3 * o13 + 2 * o14;
  }

  /** For one, ::5 and ::ffff:0.0.0.5 are one key, and something lies strictly between them. */
  lemma MappedFormsBreakTheOrder() returns (c: Ip)
    ensures var x, z := Address(0, 0, 0, 0, 5), Address(255, 0, 0, 0, 5);
            Full(c) && Equivalent(x, z) && Less(x, c) && Less(c, z)
  {
    AddressWeight(0, 0, 0, 0, 5);
    AddressWeight(255, 0, 0, 0, 5);
    c := MappedRuleBreaksTheOrder(Address(0, 0, 0, 0, 5), Address(255, 0, 0, 0, 5));
  }

  /** Different plain addresses can be one key: 10.0.1.0 and 10.0.0.2. */
  lemma SumsCollide()
    ensures Equivalent(Address(0, 10, 0, 1, 0), Address(0, 10, 0, 0, 2))
  {
    AddressWeight(0, 10, 0, 1, 0);
    AddressWeight(0, 10, 0, 0, 2);
    PlainOrder(Address(0, 10, 0, 1, 0), Address(0, 10, 0, 0, 2));
  }
}
