/**
 The allow and deny lists: ordered sets searched by descending a tree whose
 shape the library does not control.
 */
module IpAccess {
  import opened IpOrder

  /** Which of the entries `lo` up to `hi` the search looks at next: the shape of the tree. */
  type Shape = (nat, nat) -> nat

  function Pivot(shape: Shape, lo: nat, hi: nat): (mid: nat)
    requires lo < hi
    ensures lo <= mid < hi
  {
    lo + shape(lo, hi) % (hi - lo)
  }

  ghost predicate AllIps(s: seq<Ip>) { forall i :: 0 <= i < |s| ==> IsIp(s[i]) }

  /** Along the list the entries go from less than `key` over equivalent to it to greater. */
  ghost predicate Partitioned(s: seq<Ip>, key: Ip)
    requires AllIps(s) && IsIp(key)
  {
    forall i, j :: 0 <= i < j < |s| ==> (Less(s[j], key) ==> Less(s[i], key)) && (Less(key, s[i]) ==> Less(key, s[j]))
  }

  /** How many entries come before the ones equivalent to `key`. */
  function Below(s: seq<Ip>, key: Ip): (n: nat)
    requires AllIps(s) && IsIp(key)
    ensures n <= |s| && (n < |s| ==> !Less(s[n], key))
    ensures forall i :: 0 <= i < n ==> Less(s[i], key)
  {
    if s == [] || !Less(s[0], key) then 0 else 1 + Below(s[1..], key)
  }

  /** How many entries come before the ones greater than `key`. */
  function UpTo(s: seq<Ip>, key: Ip): (n: nat)
    requires AllIps(s) && IsIp(key)
    ensures n <= |s| && (n < |s| ==> Less(key, s[n]))
    ensures forall i :: 0 <= i < n ==> !Less(key, s[i])
  {
    if s == [] || Less(key, s[0]) then 0 else 1 + UpTo(s[1..], key)
  }

  ghost predicate Member(s: seq<Ip>, key: Ip)
    requires AllIps(s) && IsIp(key)
  {
    exists i :: 0 <= i < |s| && Equivalent(s[i], key)
  }

  /** In a partitioned list the equivalent entries are one stretch, found from any tree shape. */
  lemma Stretch(s: seq<Ip>, key: Ip, i: nat)
    requires AllIps(s) && IsIp(key) && Partitioned(s, key) && i < |s|
    ensures Below(s, key) <= UpTo(s, key)
    ensures Equivalent(s[i], key) <==> Below(s, key) <= i < UpTo(s, key)
  {
    hide Less, Below, UpTo;
    var lo, hi := Below(s, key), UpTo(s, key);
    if hi < |s| { Asymmetric(s[hi], key); }
  }

  // ---- searching -------------------------------------------------------------------

  /** std::set::lower_bound. */
  method LowerBound(s: seq<Ip>, key: Ip, shape: Shape) returns (at: nat)
    requires AllIps(s) && IsIp(key)
    ensures at <= |s| && (at < |s| ==> !Less(s[at], key))
    ensures Partitioned(s, key) ==> at == Below(s, key)
  {
    hide Less, Below;
    var lo, hi := 0, |s|;
    while lo < hi
      invariant 0 <= lo <= hi <= |s|
      invariant hi < |s| ==> !Less(s[hi], key)
      invariant lo > 0 ==> Less(s[lo - 1], key)
    {
      var mid := Pivot(shape, lo, hi);
      var less := Compare(s[mid], key);
      if less { lo := mid + 1; } else { hi := mid; }
    }
    at := lo;
    if Partitioned(s, key) { OnlyBelow(s, key, at); }
  }

  lemma OnlyBelow(s: seq<Ip>, key: Ip, at: nat)
    requires AllIps(s) && IsIp(key) && Partitioned(s, key) && at <= |s|
    requires (at < |s| ==> !Less(s[at], key)) && (at > 0 ==> Less(s[at - 1], key))
    ensures at == Below(s, key)
  {
    hide Less, Below;
    var lo := Below(s, key);
  }

  lemma OnlyUpTo(s: seq<Ip>, key: Ip, at: nat)
    requires AllIps(s) && IsIp(key) && Partitioned(s, key) && at <= |s|
    requires (at < |s| ==> Less(key, s[at])) && (at > 0 ==> !Less(key, s[at - 1]))
    ensures at == UpTo(s, key)
  {
    hide Less, UpTo;
    var hi := UpTo(s, key);
  }

  /** std::set::upper_bound. */
  method UpperBound(s: seq<Ip>, key: Ip, shape: Shape) returns (at: nat)
    requires AllIps(s) && IsIp(key)
    ensures at <= |s| && (at > 0 ==> !Less(key, s[at - 1]))
    ensures Partitioned(s, key) ==> at == UpTo(s, key)
  {
    hide Less, UpTo;
    var lo, hi := 0, |s|;
    while lo < hi
      invariant 0 <= lo <= hi <= |s|
      invariant hi < |s| ==> Less(key, s[hi])
      invariant lo > 0 ==> !Less(key, s[lo - 1])
    {
      var mid := Pivot(shape, lo, hi);
      var greater := Compare(key, s[mid]);
      if greater { hi := mid; } else { lo := mid + 1; }
    }
    at := lo;
    if Partitioned(s, key) { OnlyUpTo(s, key, at); }
  }

  /** popcount of the mask. */
  function Significant(mask: seq<bool>): (n: nat)
    ensures n <= |mask|
    ensures (forall i :: 0 <= i < |mask| ==> mask[i]) ==> n == |mask|
  {
    if mask == [] then 0 else (if mask[0] then 1 else 0) + Significant(mask[1..])
  }

  /** A mask that lets only some of another's octets count weighs less than it, and the same only if it is the same. */
  lemma {:induction false} FewerBitsWeighLess(m: seq<bool>, n: seq<bool>)
    requires |m| == |n| && forall i :: 0 <= i < |m| && m[i] ==> n[i]
    ensures Significant(m) <= Significant(n) && (Significant(m) == Significant(n) <==> m == n)
  {
    if m != [] {
      FewerBitsWeighLess(m[1..], n[1..]);
      assert m == [m[0]] + m[1..] && n == [n[0]] + n[1..];
    }
  }

  // ---- what the operations make of a list ------------------------------------------------

  function Placed(s: seq<Ip>, ip: Ip): (r: seq<Ip>)
    requires AllIps(s) && IsIp(ip)
    ensures AllIps(r)
  {
    s[..Below(s, ip)] + [ip] + s[Below(s, ip)..]
  }

  /** insert_wildcard_aware looks at one equivalent entry only. */
  function Upserted(s: seq<Ip>, ip: Ip): (r: seq<Ip>)
    requires AllIps(s) && IsIp(ip)
    ensures AllIps(r)
  {
    var lo, hi := Below(s, ip), UpTo(s, ip);
    if hi <= lo then Placed(s, ip)
    else if Significant(ip.mask) >= Significant(s[lo].mask) then s
    else if hi == lo + 1 then s[lo := ip]
    else s[..lo] + s[lo + 1..]
  }

  /** erase takes out every equivalent entry. */
  function Without(s: seq<Ip>, ip: Ip): (r: seq<Ip>)
    requires AllIps(s) && IsIp(ip)
    ensures AllIps(r)
  {
    if Below(s, ip) <= UpTo(s, ip) then s[..Below(s, ip)] + s[UpTo(s, ip)..] else s
  }

  /** A list without its first equivalent entry. */
  lemma OneLess(s: seq<Ip>, ip: Ip)
    requires AllIps(s) && IsIp(ip) && Partitioned(s, ip) && Below(s, ip) < UpTo(s, ip)
    ensures var lo, r := Below(s, ip), s[..Below(s, ip)] + s[Below(s, ip) + 1..];
            AllIps(r) && Partitioned(r, ip) && Below(r, ip) == lo && UpTo(r, ip) == UpTo(s, ip) - 1
  {
    hide Less, Below, UpTo;
    var lo, hi := Below(s, ip), UpTo(s, ip);
    var r := s[..lo] + s[lo + 1..];
    assert forall i :: 0 <= i < |r| ==> r[i] == if i < lo then s[i] else s[i + 1];
    assert lo + 1 < |s| ==> !Less(s[lo + 1], ip);
    OnlyBelow(r, ip, lo);
    OnlyUpTo(r, ip, hi - 1);
  }

  /** A wider entry takes over from the narrower ones it overlaps exactly when there is one at most. */
  lemma WiderEntryTakesOver(s: seq<Ip>, ip: Ip)
    requires AllIps(s) && IsIp(ip) && Partitioned(s, ip)
    requires forall i :: 0 <= i < |s| && Equivalent(s[i], ip) ==> Significant(ip.mask) < Significant(s[i].mask)
    ensures ip in Upserted(s, ip) <==> UpTo(s, ip) <= Below(s, ip) + 1
  {
    hide Less, Below, UpTo, Equivalent, Significant;
    var lo, hi := Below(s, ip), UpTo(s, ip);
    if lo < hi { Stretch(s, ip, lo); }
    SelfEquivalent(ip);
    forall i | 0 <= i < |s| ensures s[i] != ip {
      assert Equivalent(s[i], ip) ==> Significant(ip.mask) < Significant(s[i].mask);
    }
    if hi > lo + 1 { assert forall e <- s[..lo] + s[lo + 1..] :: e in s; }
    if hi == lo + 1 { assert s[lo := ip][lo] == ip; }
    if hi <= lo { assert Placed(s, ip)[lo] == ip; }
  }

  lemma SelfEquivalent(ip: Ip)
    requires IsIp(ip)
    ensures Equivalent(ip, ip)
  {
    Asymmetric(ip, ip);
  }

  class AddressSet {
    var entries: seq<Ip>
    var shape: Shape

    ghost predicate Valid()
      reads this
    {
      AllIps(entries)
    }

    constructor (shape: Shape)
      ensures Valid() && entries == []
    {
      entries := [];
      this.shape := shape;
    }

    /** find: the position of an equivalent entry, or the size of the set. What is found is always equivalent. */
    method Find(ip: Ip) returns (at: nat)
      requires Valid() && IsIp(ip)
      ensures at <= |entries| && (at < |entries| ==> Equivalent(entries[at], ip))
      ensures Partitioned(entries, ip) ==>
                at == if Below(entries, ip) < UpTo(entries, ip) then Below(entries, ip) else |entries|
    {
      hide Less, Below, UpTo;
      at := LowerBound(entries, ip, shape);
      if at < |entries| {
        if Partitioned(entries, ip) { Stretch(entries, ip, at); }
        var less := Compare(ip, entries[at]);
        if less { at := |entries|; }
      }
    }

    /** insert: an equivalent entry stays, otherwise the address takes its place in the order. */
    method Insert(ip: Ip)
      requires Valid() && IsIp(ip)
      modifies this`entries
      ensures Valid() && Member(entries, ip)
      ensures old(Partitioned(entries, ip)) ==>
                entries == old(if Below(entries, ip) < UpTo(entries, ip) then entries else Placed(entries, ip))
    {
      hide Less, Below, UpTo, Equivalent;
      var found := Find(ip);
      if found < |entries| { return; }
      var at := LowerBound(entries, ip, shape);
      entries := entries[..at] + [ip] + entries[at..];
      SelfEquivalent(ip);
      assert entries[at] == ip;
    }

    /**
     insert_wildcard_aware, for every list and every address, wildcards or not: something equivalent is there
     afterwards.
     */
    method InsertWildcardAware(ip: Ip)
      requires Valid() && IsIp(ip)
      modifies this`entries
      ensures Valid() && Member(entries, ip)
      ensures old(Partitioned(entries, ip)) ==> entries == old(Upserted(entries, ip))
    {
      hide Less, Below, UpTo, Equivalent, Significant;
      var at := Find(ip);
      ghost var s := entries;
      if at != |entries| && Significant(ip.mask) < Significant(entries[at].mask) {
        entries := entries[..at] + entries[at + 1..];
        if Partitioned(s, ip) {
          OneLess(s, ip);
          Replaced(s, at, ip);
        }
      }
      Insert(ip);
    }

    /** erase by key. */
    method Erase(ip: Ip)
      requires Valid() && IsIp(ip)
      modifies this`entries
      ensures Valid()
      ensures old(Partitioned(entries, ip)) ==> entries == old(Without(entries, ip))
    {
      hide Less, Below, UpTo;
      var lo := LowerBound(entries, ip, shape);
      var hi := UpperBound(entries, ip, shape);
      if lo <= hi { entries := entries[..lo] + entries[hi..]; }
    }

    /** count != 0: never true without an equivalent entry. */
    method Contains(ip: Ip) returns (found: bool)
      requires Valid() && IsIp(ip)
      ensures found ==> Member(entries, ip)
      ensures Partitioned(entries, ip) ==> (found <==> Member(entries, ip))
    {
      hide Less, Below, UpTo, Equivalent;
      var at := Find(ip);
      found := at != |entries|;
      if Partitioned(entries, ip) { MemberByStretch(entries, ip); }
    }
  }

  lemma Replaced(s: seq<Ip>, at: nat, ip: Ip)
    requires at < |s|
    ensures var r := s[..at] + s[at + 1..]; r[..at] + [ip] + r[at..] == s[at := ip]
  {
  }

  lemma MemberByStretch(s: seq<Ip>, ip: Ip)
    requires AllIps(s) && IsIp(ip) && Partitioned(s, ip)
    ensures Member(s, ip) <==> Below(s, ip) < UpTo(s, ip)
  {
    hide Less, Below, UpTo, Equivalent;
    if Below(s, ip) < UpTo(s, ip) { Stretch(s, ip, Below(s, ip)); }
    if Member(s, ip) {
      var i :| 0 <= i < |s| && Equivalent(s[i], ip);
      Stretch(s, ip, i);
    }
  }

  /** A list with one entry is partitioned for every address; so a wildcard alone has every address it covers. */
  lemma WildcardAlone(w: Ip, ip: Ip)
    requires IsIp(w) && IsIp(ip)
    ensures Partitioned([w], ip) && (Member([w], ip) <==> Equivalent(w, ip))
    ensures Overlap(w, ip) ==> Member([w], ip)
  {
    assert Member([w], ip) <==> Equivalent(w, ip) by { assert [w][0] == w; }
    if Overlap(w, ip) { WildcardCovers(w, ip); }
  }

  // ---- the two lists and the decision --------------------------------------------

  datatype Policy = AcceptByDefault | RejectByDefault

  datatype Decision = Accepted | Denied | NotOnAllowList

  /** classify_decision. */
  function ClassifyDecision(policy: Policy, denied: bool, allowed: bool): (d: Decision)
    ensures policy.AcceptByDefault? ==> (d.Accepted? <==> (denied ==> allowed))
    ensures policy.RejectByDefault? ==> (d.Accepted? <==> allowed && !denied)
    ensures d.Denied? <==> denied && !(policy.AcceptByDefault? && allowed)
  {
    if policy.AcceptByDefault? && denied && !allowed then Denied
    else if policy.RejectByDefault? && denied then Denied
    else if policy.RejectByDefault? && !allowed then NotOnAllowList
    else Accepted
  }

  datatype Edit = Deny(ip: Ip) | RemoveDenied(ip: Ip) | Allow(ip: Ip) | RemoveAllowed(ip: Ip)

  ghost predicate EditsOk(edits: seq<Edit>) { forall i :: 0 <= i < |edits| ==> IsIp(edits[i].ip) }

  predicate Puts(e: Edit, deny: bool) { if deny then e.Deny? else e.Allow? }

  predicate Takes(e: Edit, deny: bool) { if deny then e.RemoveDenied? else e.RemoveAllowed? }

  /** One list after a run of edits. */
  function ListAfter(edits: seq<Edit>, deny: bool): (s: seq<Ip>)
    requires EditsOk(edits)
    ensures AllIps(s)
  {
    if edits == [] then []
    else
      var n := |edits| - 1;
      assert EditsOk(edits[..n]);
      var s, e := ListAfter(edits[..n], deny), edits[n];
      if Puts(e, deny) then Upserted(s, e.ip) else if Takes(e, deny) then Without(s, e.ip) else s
  }

  /** Whenever an edit comes, the list it goes to is partitioned for its address. */
  ghost predicate Orderly(edits: seq<Edit>)
    requires EditsOk(edits)
  {
    edits == [] ||
    (var n := |edits| - 1;
     EditsOk(edits[..n]) && Orderly(edits[..n])
     && forall deny: bool :: Puts(edits[n], deny) || Takes(edits[n], deny)
          ==> Partitioned(ListAfter(edits[..n], deny), edits[n].ip))
  }

  lemma OneMoreEdit(edits: seq<Edit>, n: nat)
    requires n < |edits| && EditsOk(edits)
    ensures EditsOk(edits[..n]) && EditsOk(edits[..n + 1]) && edits[..n + 1][..n] == edits[..n]
    ensures edits[..n + 1][n] == edits[n]
  {
  }

  lemma {:induction false} OrderlyBefore(edits: seq<Edit>, n: nat)
    requires n <= |edits| && EditsOk(edits) && Orderly(edits)
    ensures EditsOk(edits[..n]) && Orderly(edits[..n])
  {
    if n == |edits| {
      assert edits[..n] == edits;
    } else {
      OrderlyBefore(edits[..|edits| - 1], n);
      assert edits[..|edits| - 1][..n] == edits[..n];
    }
  }

  /**
   Every run of edits and then a connection attempt, wildcards and mapped addresses included:
   when the lists were partitioned for what was asked of them, the decision follows the lists.
   */
  method RunThenClassify(edits: seq<Edit>, peer: Ip, policy: Policy, shape: Shape) returns (d: Decision)
    requires EditsOk(edits) && IsIp(peer)
    ensures Orderly(edits) && Partitioned(ListAfter(edits, true), peer)
              && Partitioned(ListAfter(edits, false), peer) ==>
              d == ClassifyDecision(policy, Member(ListAfter(edits, true), peer), Member(ListAfter(edits, false), peer))
  {
    hide Less, Upserted, Without, Member, Orderly;
    var deny := new AddressSet(shape);
    var allow := new AddressSet(shape);
    for n := 0 to |edits|
      invariant EditsOk(edits[..n])
      invariant deny.Valid() && allow.Valid() && deny != allow && fresh(deny) && fresh(allow)
      invariant Orderly(edits) ==>
                  deny.entries == ListAfter(edits[..n], true) && allow.entries == ListAfter(edits[..n], false)
    {
      OneMoreEdit(edits, n);
      if Orderly(edits) { OrderlyStep(edits, n); }
      match edits[n]
      case Deny(ip) => deny.InsertWildcardAware(ip);
      case RemoveDenied(ip) => deny.Erase(ip);
      case Allow(ip) => allow.InsertWildcardAware(ip);
      case RemoveAllowed(ip) => allow.Erase(ip);
    }
    assert edits[..|edits|] == edits;
    var denied := deny.Contains(peer);
    var allowed := allow.Contains(peer);
    d := ClassifyDecision(policy, denied, allowed);
  }

  lemma OrderlyStep(edits: seq<Edit>, n: nat)
    requires n < |edits| && EditsOk(edits) && Orderly(edits)
    ensures EditsOk(edits[..n])
    ensures forall deny: bool :: Puts(edits[n], deny) || Takes(edits[n], deny)
              ==> Partitioned(ListAfter(edits[..n], deny), edits[n].ip)
  {
    OneMoreEdit(edits, n);
    OrderlyBefore(edits, n + 1);
  }

  // ---- on a class where the order is a strict weak one ----------------------------------

  /** The weighted sums present. */
  ghost function SumsOf(s: seq<Ip>): (ks: set<int>)
    requires AllIps(s)
  {
    set i | 0 <= i < |s| :: Sum(s[i])
  }

  /** Entries of the class by increasing weighted sum, none twice. */
  ghost predicate Ordered(s: seq<Ip>, pairs: set<(nat, nat)>)
  {
    && (forall i :: 0 <= i < |s| ==> InClass(s[i], pairs))
    && forall i, j :: 0 <= i < j < |s| ==> Sum(s[i]) < Sum(s[j])
  }

  lemma ClassLess(s: seq<Ip>, pairs: set<(nat, nat)>, ip: Ip, i: nat)
    requires OneMapped(pairs) && Ordered(s, pairs) && InClass(ip, pairs) && i < |s|
    ensures Less(s[i], ip) <==> Sum(s[i]) < Sum(ip)
    ensures Less(ip, s[i]) <==> Sum(ip) < Sum(s[i])
    ensures Equivalent(s[i], ip) <==> Sum(ip) == Sum(s[i])
  {
    hide Less, Equivalent, Sum, OneMapped;
    ClassOrder(pairs, s[i], ip);
    ClassOrder(pairs, ip, s[i]);
  }

  lemma OrderedIsPartitioned(s: seq<Ip>, pairs: set<(nat, nat)>, ip: Ip)
    requires OneMapped(pairs) && Ordered(s, pairs) && InClass(ip, pairs)
    ensures AllIps(s) && Partitioned(s, ip)
    ensures forall i :: 0 <= i < Below(s, ip) ==> Sum(s[i]) < Sum(ip)
    ensures forall i :: Below(s, ip) <= i < |s| ==> Sum(ip) <= Sum(s[i])
  {
    hide Less, Equivalent, Sum, Below, OneMapped;
    forall i | 0 <= i < |s|
      ensures Less(s[i], ip) <==> Sum(s[i]) < Sum(ip)
      ensures Less(ip, s[i]) <==> Sum(ip) < Sum(s[i])
    {
      ClassLess(s, pairs, ip, i);
    }
  }

  /** There the stretch of equivalent entries is the entry with the sum, if there is one. */
  lemma OrderedStretch(s: seq<Ip>, pairs: set<(nat, nat)>, ip: Ip)
    requires OneMapped(pairs) && Ordered(s, pairs) && InClass(ip, pairs)
    ensures AllIps(s) && (Member(s, ip) <==> Sum(ip) in SumsOf(s))
    ensures UpTo(s, ip) == Below(s, ip) + if Sum(ip) in SumsOf(s) then 1 else 0
    ensures Sum(ip) in SumsOf(s) ==> Sum(s[Below(s, ip)]) == Sum(ip)
  {
    hide Less, Equivalent, Sum, Below, UpTo, OneMapped, InClass;
    ClassIsIp(pairs);
    OrderedIsPartitioned(s, pairs, ip);
    var lo := Below(s, ip);
    if Sum(ip) in SumsOf(s) {
      var i :| 0 <= i < |s| && Sum(s[i]) == Sum(ip);
      assert i == lo;
      ClassLess(s, pairs, ip, lo);
      if lo + 1 < |s| { ClassLess(s, pairs, ip, lo + 1); }
      OnlyUpTo(s, ip, lo + 1);
    } else {
      if lo < |s| {
        assert Sum(s[lo]) in SumsOf(s);
        ClassLess(s, pairs, ip, lo);
      }
      if lo > 0 { ClassLess(s, pairs, ip, lo - 1); }
      OnlyUpTo(s, ip, lo);
    }
    MemberByStretch(s, ip);
  }

  lemma SumsConcat(s: seq<Ip>, t: seq<Ip>)
    requires AllIps(s) && AllIps(t)
    ensures SumsOf(s + t) == SumsOf(s) + SumsOf(t)
  {
    hide Sum;
    forall k | k in SumsOf(t) ensures k in SumsOf(s + t) {
      var i :| 0 <= i < |t| && Sum(t[i]) == k;
      assert (s + t)[|s| + i] == t[i];
    }
    forall k | k in SumsOf(s) ensures k in SumsOf(s + t) {
      var i :| 0 <= i < |s| && Sum(s[i]) == k;
      assert (s + t)[i] == s[i];
    }
  }

  lemma SumOfOne(ip: Ip)
    requires IsIp(ip)
    ensures SumsOf([ip]) == {Sum(ip)}
  {
    assert [ip][0] == ip;
  }

  lemma OrderedPlaced(s: seq<Ip>, pairs: set<(nat, nat)>, lo: nat, ip: Ip)
    requires Ordered(s, pairs) && InClass(ip, pairs) && lo <= |s|
    requires forall i :: 0 <= i < lo ==> Sum(s[i]) < Sum(ip)
    requires forall i :: lo <= i < |s| ==> Sum(ip) < Sum(s[i])
    ensures var r := s[..lo] + [ip] + s[lo..]; AllIps(s) && Ordered(r, pairs) && SumsOf(r) == SumsOf(s) + {Sum(ip)}
  {
    hide Sum, InClass;
    ClassIsIp(pairs);
    assert s == s[..lo] + s[lo..];
    SumsConcat(s[..lo], s[lo..]);
    SumsConcat(s[..lo], [ip]);
    SumsConcat(s[..lo] + [ip], s[lo..]);
    SumOfOne(ip);
  }

  lemma ClassWidth(a: Ip, pairs: set<(nat, nat)>)
    requires InClass(a, pairs)
    ensures Significant(a.mask) == 16
  {
  }

  lemma ClassUpsert(s: seq<Ip>, pairs: set<(nat, nat)>, ip: Ip)
    requires OneMapped(pairs) && Ordered(s, pairs) && InClass(ip, pairs)
    ensures AllIps(s) && Ordered(Upserted(s, ip), pairs) && SumsOf(Upserted(s, ip)) == SumsOf(s) + {Sum(ip)}
  {
    hide Less, Sum, Below, UpTo, OneMapped, Significant, InClass;
    ClassIsIp(pairs);
    OrderedIsPartitioned(s, pairs, ip);
    OrderedStretch(s, pairs, ip);
    var lo := Below(s, ip);
    if Sum(ip) in SumsOf(s) {
      ClassWidth(ip, pairs);
      ClassWidth(s[lo], pairs);
    } else {
      assert forall i :: lo <= i < |s| ==> Sum(s[i]) in SumsOf(s);
      OrderedPlaced(s, pairs, lo, ip);
    }
  }

  lemma OrderedWithout(s: seq<Ip>, pairs: set<(nat, nat)>, lo: nat)
    requires Ordered(s, pairs) && lo < |s|
    ensures var r := s[..lo] + s[lo + 1..]; AllIps(s) && Ordered(r, pairs) && SumsOf(r) == SumsOf(s) - {Sum(s[lo])}
  {
    hide Sum, InClass;
    assert AllIps(s) by { assert forall i :: 0 <= i < |s| ==> InClass(s[i], pairs); ClassIsIp(pairs); }
    var front, back := s[..lo], s[lo + 1..];
    assert s == front + [s[lo]] + back;
    SumsConcat(front, back);
    SumsConcat(front, [s[lo]]);
    SumsConcat(front + [s[lo]], back);
    SumOfOne(s[lo]);
    assert Sum(s[lo]) !in SumsOf(front) && Sum(s[lo]) !in SumsOf(back);
  }

  lemma ClassIsIp(pairs: set<(nat, nat)>)
    ensures forall a: Ip :: InClass(a, pairs) ==> IsIp(a)
  {
  }

  lemma ClassWithout(s: seq<Ip>, pairs: set<(nat, nat)>, ip: Ip)
    requires OneMapped(pairs) && Ordered(s, pairs) && InClass(ip, pairs)
    ensures AllIps(s) && Ordered(Without(s, ip), pairs) && SumsOf(Without(s, ip)) == SumsOf(s) - {Sum(ip)}
  {
    hide Less, Sum, Below, UpTo, OneMapped, InClass, Ordered, SumsOf;
    ClassIsIp(pairs);
    OrderedIsPartitioned(s, pairs, ip);
    OrderedStretch(s, pairs, ip);
    if Sum(ip) in SumsOf(s) {
      OrderedWithout(s, pairs, Below(s, ip));
    } else {
      assert s[..Below(s, ip)] + s[Below(s, ip)..] == s;
    }
  }

  /** The last edit of one list that touched the sum `k`, looking back from the end, put it there. */
  ghost predicate LastPut(edits: seq<Edit>, k: int, deny: bool)
    requires EditsOk(edits)
  {
    if edits == [] then false
    else
      var n := |edits| - 1;
      assert EditsOk(edits[..n]);
      if Sum(edits[n].ip) == k && (Puts(edits[n], deny) || Takes(edits[n], deny)) then Puts(edits[n], deny)
      else LastPut(edits[..n], k, deny)
  }

  /**
   On a class with one mapped pair at most every run is orderly, and membership depends on the edits only
   through the last one of the list with the weighted sum of the address.
   */
  lemma ClassStep(s: seq<Ip>, pairs: set<(nat, nat)>, e: Edit, deny: bool)
    requires OneMapped(pairs) && Ordered(s, pairs) && InClass(e.ip, pairs)
    ensures AllIps(s) && IsIp(e.ip)
    ensures var r := if Puts(e, deny) then Upserted(s, e.ip) else if Takes(e, deny) then Without(s, e.ip) else s;
            && Ordered(r, pairs)
            && SumsOf(r) == if Puts(e, deny) then SumsOf(s) + {Sum(e.ip)}
                            else if Takes(e, deny) then SumsOf(s) - {Sum(e.ip)}
                            else SumsOf(s)
  {
    hide Sum, Upserted, Without, OneMapped, Ordered, SumsOf;
    ClassUpsert(s, pairs, e.ip);
    ClassWithout(s, pairs, e.ip);
  }

  lemma {:induction false} ClassRun(edits: seq<Edit>, pairs: set<(nat, nat)>, deny: bool, k: int)
    requires OneMapped(pairs) && forall i :: 0 <= i < |edits| ==> InClass(edits[i].ip, pairs)
    ensures EditsOk(edits) && Ordered(ListAfter(edits, deny), pairs)
    ensures k in SumsOf(ListAfter(edits, deny)) <==> LastPut(edits, k, deny)
  {
    hide Sum, Upserted, Without, OneMapped, InClass, SumsOf;
    ClassIsIp(pairs);
    if edits == [] {
      NoSums();
    } else {
      hide Ordered;
      var n := |edits| - 1;
      ClassRun(edits[..n], pairs, deny, k);
      ClassStep(ListAfter(edits[..n], deny), pairs, edits[n], deny);
    }
  }

  lemma NoSums()
    ensures SumsOf([]) == {}
  {
  }

  lemma {:induction false} ClassOrderly(edits: seq<Edit>, pairs: set<(nat, nat)>)
    requires OneMapped(pairs) && forall i :: 0 <= i < |edits| ==> InClass(edits[i].ip, pairs)
    ensures EditsOk(edits) && Orderly(edits)
  {
    if edits != [] {
      var n := |edits| - 1;
      ClassOrderly(edits[..n], pairs);
      hide Sum, Upserted, Without, OneMapped, Less, SumsOf, LastPut;
      forall deny: bool ensures Partitioned(ListAfter(edits[..n], deny), edits[n].ip) {
        ClassRun(edits[..n], pairs, deny, 0);
        OrderedIsPartitioned(ListAfter(edits[..n], deny), pairs, edits[n].ip);
      }
    }
  }

  /** So there the decision is that of the last edits at the peer's sum. */
  lemma ClassDecision(edits: seq<Edit>, peer: Ip, pairs: set<(nat, nat)>, deny: bool)
    requires OneMapped(pairs) && InClass(peer, pairs) && forall i :: 0 <= i < |edits| ==> InClass(edits[i].ip, pairs)
    ensures EditsOk(edits) && Orderly(edits) && Partitioned(ListAfter(edits, deny), peer)
    ensures Member(ListAfter(edits, deny), peer) <==> LastPut(edits, Sum(peer), deny)
  {
    hide Sum, SumsOf, LastPut, Orderly, ListAfter, Ordered, OneMapped, InClass, Member, Partitioned, AllIps, IsIp;
    ClassIsIp(pairs);
    ClassOrderly(edits, pairs);
    ClassRun(edits, pairs, deny, Sum(peer));
    OrderedIsPartitioned(ListAfter(edits, deny), pairs, peer);
    OrderedStretch(ListAfter(edits, deny), pairs, peer);
  }

  // ---- a wider entry that overlaps two stored ones is lost ---------------------------------

  /** 10.0.0.* : the last octet does not count. */
  function Net10(): (w: Ip)
    ensures IsIp(w)
  {
    Ip(Address(0, 10, 0, 0, 0).octets, Address(0, 10, 0, 0, 0).mask[15 := false])
  }

  /** Putting two entries and then a wider one that overlaps both leaves the second alone. */
  lemma WiderEntryAfterTwo(a: Ip, b: Ip, w: Ip)
    requires IsIp(a) && IsIp(b) && IsIp(w) && Less(a, b) && Equivalent(a, w) && Equivalent(b, w)
    requires Significant(w.mask) < Significant(a.mask)
    ensures var edits := [Deny(a), Deny(b), Deny(w)]; EditsOk(edits) && Orderly(edits) && ListAfter(edits, true) == [b]
    ensures !Member([b], a)
  {
    var edits := [Deny(a), Deny(b), Deny(w)];
    hide Less, Significant;
    TwoEdits(a, b);
    assert edits[..2] == [Deny(a), Deny(b)];
    assert [a, b][1..] == [b] && [b][1..] == [];
    assert Below([a, b], w) == 0;
    assert UpTo([b], w) == 1;
    assert UpTo([a, b], w) == 2;
    assert [a, b][..0] + [a, b][1..] == [b];
    assert Partitioned([a, b], w);
  }

  /** Denying 10.0.0.1, 10.0.0.2 and then 10.0.0.* leaves only 10.0.0.2 denied. */
  lemma WiderEntryIsLost()
    ensures var a, b := Address(0, 10, 0, 0, 1), Address(0, 10, 0, 0, 2);
            var edits := [Deny(a), Deny(b), Deny(Net10())];
            EditsOk(edits) && Orderly(edits) && ListAfter(edits, true) == [b] && !Member([b], a) && Overlap(Net10(), a)
  {
    hide *;
    var a, b := Address(0, 10, 0, 0, 1), Address(0, 10, 0, 0, 2);
    HostOrder();
    NetCovers(1);
    NetCovers(2);
    WildcardCovers(a, Net10());
    WildcardCovers(b, Net10());
    WiderEntryAfterTwo(a, b, Net10());
  }

  lemma HostOrder()
    ensures Less(Address(0, 10, 0, 0, 1), Address(0, 10, 0, 0, 2))
  {
    AddressWeight(0, 10, 0, 0, 1);
    AddressWeight(0, 10, 0, 0, 2);
    hide Less, Weighted;
    PlainOrder(Address(0, 10, 0, 0, 1), Address(0, 10, 0, 0, 2));
  }

  /** 10.0.0.* covers 10.0.0.n and is wider. */
  lemma NetCovers(n: nat)
    requires n < 256
    ensures Overlap(Address(0, 10, 0, 0, n), Net10()) && Overlap(Net10(), Address(0, 10, 0, 0, n))
    ensures Significant(Net10().mask) < Significant(Address(0, 10, 0, 0, n).mask)
  {
    hide Significant;
    var a, w := Address(0, 10, 0, 0, n), Net10();
    assert forall i :: 0 <= i < 15 ==> a.octets[i] == w.octets[i];
    assert forall i :: 0 <= i < 16 ==> a.mask[i];
    assert !w.mask[15];
    Narrower(w.mask, 15);
  }

  lemma TwoEdits(a: Ip, b: Ip)
    requires IsIp(a) && IsIp(b) && Less(a, b)
    ensures EditsOk([Deny(a), Deny(b)]) && Orderly([Deny(a), Deny(b)]) && ListAfter([Deny(a), Deny(b)], true) == [a, b]
  {
    Asymmetric(a, b);
    hide Less, Significant;
    var one, two := [Deny(a)], [Deny(a), Deny(b)];
    assert one[..0] == [] && two[..1] == one;
    assert Below([], a) == 0 && UpTo([], a) == 0;
    assert Placed([], a) == [a];
    assert ListAfter(one, true) == [a];
    assert Orderly(one);
    assert [a][1..] == [];
    assert Below([a], b) == 1 && UpTo([a], b) == 1;
    assert Placed([a], b) == [a, b];
  }

  lemma {:induction false} Narrower(m: seq<bool>, i: nat)
    requires i < |m| && !m[i]
    ensures Significant(m) < |m|
  {
    if i > 0 { Narrower(m[1..], i - 1); }
  }
}
