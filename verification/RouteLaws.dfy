/**
 What registration promises: all or nothing, one place changed and no other, lambda slots
 filled and kept, and no key both an exact and a prefix route. Where the code breaks a
 promise, an example and the exact condition.
 */
module RouteLaws {
  import opened Wrappers
  import opened Paths
  import opened SegmentTrie
  import opened Endpoint
  import opened Routes

  // ---- places ----------------------------------------------------------------------------

  /** Where an entry can be registered. Patterns with the same shape are one place. */
  datatype Place = ExactKey(key: string) | Pattern(segs: seq<string>, isPrefix: bool) | RegexKey(key: string)

  function EntryAt(t: Table, p: Place): (e: Option<Entry>)
  {
    match p
    case ExactKey(key) => if key in t.exact then Some(t.exact[key]) else None
    case Pattern(segs, isPrefix) => At(t.trie, segs, isPrefix)
    case RegexKey(key) => RegexAt(t.regex, key)
  }

  predicate SamePlace(p: Place, q: Place)
  {
    if p.Pattern? && q.Pattern? then SameShape(p.segs, q.segs) && p.isPrefix == q.isPrefix else p == q
  }

  function PlaceOf(ep: Endpoint, family: bool, re: Regexes): (p: Place)
  {
    if family then Pattern(PathTokens(ep.key), true)
    else
      match TierOf(ep, re)
      case ExactTier => ExactKey(ep.key)
      case RadixTier => Pattern(PathTokens(ep.key), false)
      case RegexTier => RegexKey(ep.key)
  }

  lemma {:induction false} RegexAtAppend(regex: seq<RegexRoute>, route: RegexRoute, key: string)
    ensures RegexAt(regex + [route], key)
         == if RegexAt(regex, key).Some? then RegexAt(regex, key)
            else if route.key == key then Some(route.entry)
            else None
  {
    if regex == [] {
      assert regex + [route] == [route];
    } else {
      assert (regex + [route])[1..] == regex[1..] + [route];
      RegexAtAppend(regex[1..], route, key);
    }
  }

  lemma {:induction false} RegexAtWithout(regex: seq<RegexRoute>, gone: string, key: string)
    ensures RegexAt(WithoutKey(regex, gone), key) == if key == gone then None else RegexAt(regex, key)
  {
    if regex != [] {
      var rest := WithoutKey(regex[1..], gone);
      RegexAtWithout(regex[1..], gone, key);
      if regex[0].key != gone { assert ([regex[0]] + rest)[1..] == rest; } else { assert [] + rest == rest; }
    }
  }

  lemma {:induction false} InRegexIff(regex: seq<RegexRoute>, key: string)
    ensures InRegex(regex, key) <==> RegexAt(regex, key).Some?
  {
    if regex != [] {
      InRegexIff(regex[1..], key);
      if regex[0].key != key && InRegex(regex, key) {
        var i :| 0 <= i < |regex| && regex[i].key == key;
        assert regex[1..][i - 1].key == key;
      }
      if InRegex(regex[1..], key) {
        var i :| 0 <= i < |regex[1..]| && regex[1..][i].key == key;
        assert regex[i + 1].key == key;
      }
    }
  }

  // ---- register_path and register_prefix ---------------------------------------------------

  /** A refused registration leaves the table untouched exactly when a guard refused it. */
  lemma RegisterAllOrNothing(t: Table, ep: Endpoint, res: Resource, family: bool, re: Regexes)
    requires !Register(t, ep, res, family, re).accepted
    ensures Register(t, ep, res, family, re).table == t <==> Guarded(t, ep, family, re)
  {
    if !Guarded(t, ep, family, re) {
      FailedInsertChanges(t.trie, PathTokens(ep.key), Entry(AllMethods(), res, family), family, re);
    }
  }

  /** A registration with no constraint left to compile is all or nothing. */
  lemma CompiledPatternsAreSafe<T>(n: Node<T>, segs: seq<string>, re: Regexes)
    requires forall i :: 0 <= i < |segs| && IsWild(segs[i]) ==>
               WildConstraint(segs[i]) == "" || re.valid(WildConstraint(segs[i]))
    ensures !InsertFails(n, segs, re)
    decreases |segs|
  {
    if segs != [] {
      assert forall i :: 0 <= i < |segs[1..]| ==> segs[1..][i] == segs[i + 1];
      CompiledPatternsAreSafe(Child(n, segs[0]), segs[1..], re);
    }
  }

  /** An accepted registration finds its place empty, fills it, and changes no other place and no lambda. */
  lemma RegisterFillsOnePlace(t: Table, ep: Endpoint, res: Resource, family: bool, re: Regexes, p: Place)
    requires Shaped(t.trie) && Register(t, ep, res, family, re).accepted
    ensures EntryAt(t, PlaceOf(ep, family, re)).None?
    ensures EntryAt(Register(t, ep, res, family, re).table, p)
         == if SamePlace(PlaceOf(ep, family, re), p) then Some(Entry(AllMethods(), res, family)) else EntryAt(t, p)
    ensures Register(t, ep, res, family, re).table.lambdas == t.lambdas
  {
    var entry := Entry(AllMethods(), res, family);
    InRegexIff(t.regex, ep.key);
    hide PathTokens, InRegex, AllMethods, SameShape, At, Inserted, InsertFails;
    if p.Pattern? { InsertedAt(t.trie, PathTokens(ep.key), entry, family, re, p.segs, p.isPrefix); }
    if p.RegexKey? { RegexAtAppend(t.regex, RegexRoute(ep.key, ep.normalized, entry), p.key); }
    HasTerminusIsAt(t.trie, PathTokens(ep.key));
  }

  lemma HasTerminusIsAt<T>(n: Node<T>, segs: seq<string>)
    ensures HasTerminusAt(n, segs, true) == At(n, segs, true).Some?
              && HasTerminusAt(n, segs, false) == At(n, segs, false).Some?
  {
  }

  /** Unregistering empties the places of its key and no other. */
  lemma UnregisterEmptiesItsPlaces(t: Table, ep: Endpoint, family: bool, p: Place)
    requires Shaped(t.trie)
    ensures var hit := if family then SamePlace(Pattern(PathTokens(ep.key), true), p)
                       else if ep.params != [] then SamePlace(Pattern(PathTokens(ep.key), false), p)
                       else p == ExactKey(ep.key) || p == RegexKey(ep.key);
            EntryAt(Unregister(t, ep, family), p) == if hit then None else EntryAt(t, p)
    ensures Unregister(t, ep, family).lambdas == t.lambdas
  {
    hide PathTokens, SameShape, At, Removed;
    if p.Pattern? { RemovedAt(t.trie, PathTokens(ep.key), family, p.segs, p.isPrefix); }
    if p.RegexKey? { RegexAtWithout(t.regex, ep.key, p.key); }
  }

  lemma UnregisterResourceEmptiesAll(t: Table, key: string, p: Place)
    requires Shaped(t.trie)
    ensures var hit := SamePlace(Pattern(PathTokens(key), true), p) || SamePlace(Pattern(PathTokens(key), false), p)
                       || p == ExactKey(key) || p == RegexKey(key);
            EntryAt(UnregisterAll(t, key), p) == if hit then None else EntryAt(t, p)
    ensures UnregisterAll(t, key).lambdas == t.lambdas
  {
    hide PathTokens, SameShape, At, Removed;
    var ts := PathTokens(key);
    if p.Pattern? {
      RemovedShaped(t.trie, ts, false);
      RemovedAt(t.trie, ts, false, p.segs, p.isPrefix);
      RemovedAt(Removed(t.trie, ts, false), ts, true, p.segs, p.isPrefix);
    }
    if p.RegexKey? { RegexAtWithout(t.regex, key, p.key); }
  }

  // ---- lambda routes ---------------------------------------------------------------------

  /** The lambda resources behind routes exist, and no two regex routes share one. */
  ghost predicate Owned(t: Table)
  {
    && (forall k <- t.exact :: Exists(t.exact[k], |t.lambdas|))
    && RegexOwned(t.regex, |t.lambdas|)
    && TrieOwned(t.trie, |t.lambdas|)
  }

  predicate Exists(e: Entry, n: nat) { e.handler.Lambda? ==> e.handler.id < n }

  /** Every terminus at and below a node dispatches to a lambda resource that exists, or to a user's. */
  ghost predicate TrieOwned(node: Node<Entry>, n: nat)
  {
    && (forall q: bool :: Terminus(node, q).Some? ==> Exists(Terminus(node, q).value, n))
    && (forall k <- node.children :: TrieOwned(node.children[k], n))
    && (node.wild.Some? ==> TrieOwned(node.wild.value.node, n))
  }

  ghost predicate RegexOwned(regex: seq<RegexRoute>, n: nat)
  {
    && (forall i :: 0 <= i < |regex| ==> Exists(regex[i].entry, n))
    && (forall i, j :: 0 <= i < j < |regex| && regex[i].entry.handler.Lambda?
         ==> regex[i].entry.handler != regex[j].entry.handler)
  }

  lemma RegexOwnedTail(regex: seq<RegexRoute>, n: nat)
    requires RegexOwned(regex, n) && regex != []
    ensures RegexOwned(regex[1..], n)
  {
    var rest := regex[1..];
    assert forall i :: 0 <= i < |rest| ==> rest[i] == regex[i + 1];
  }

  lemma {:induction false} RegexAtIndex(regex: seq<RegexRoute>, key: string) returns (i: nat)
    requires RegexAt(regex, key).Some?
    ensures i < |regex| && regex[i].key == key && regex[i].entry == RegexAt(regex, key).value
  {
    if regex[0].key == key {
      i := 0;
    } else {
      var j := RegexAtIndex(regex[1..], key);
      i := j + 1;
    }
  }

  /** Updating by identity of the lambda resource updates the entry that was found by key. */
  lemma {:induction false} MergeRegexAt(regex: seq<RegexRoute>, n: nat, key: string, methods: Mask, id: nat, k: string)
    requires RegexOwned(regex, n)
    requires RegexAt(regex, key).Some? && RegexAt(regex, key).value.handler == Lambda(id)
    ensures RegexAt(MergeRegex(regex, methods, id), k)
         == if k == key then Some(Merge(RegexAt(regex, key).value, methods, id)) else RegexAt(regex, k)
  {
    var r := MergeRegex(regex, methods, id);
    if regex[0].entry.handler == Lambda(id) {
      if regex[0].key != key {
        var i := RegexAtIndex(regex, key);
        assert false;
      }
    } else {
      RegexOwnedTail(regex, n);
      MergeRegexAt(regex[1..], n, key, methods, id, k);
      assert r[1..] == MergeRegex(regex[1..], methods, id);
    }
  }

  /** Slots are written before the guard of a fresh entry can throw; but only a new lambda resource gets that far. */
  lemma RefusedPlainIsFresh(t: Table, ep: Endpoint, methods: Mask, h: Handler, re: Regexes)
    requires !OnPlain(t, ep, methods, h, re).accepted && !Refuses(t, Probe(t, ep, re), methods)
    ensures Probe(t, ep, re).None? && ShimOf(t, Probe(t, ep, re)) == |t.lambdas| && Collides(t, ep.key, false)
  {
    hide Probe, Refuses, Collides, Commit, UpdateExisting, TierOf;
    SlotsAreApart(t, ShimOf(t, Probe(t, ep, re)), methods, h, ep.key, false);
  }

  /** So a refused parameterless on_get, on_post, … or route call changes nothing at all. */
  lemma OnPlainAllOrNothing(t: Table, ep: Endpoint, methods: Mask, h: Handler, re: Regexes)
    requires !OnPlain(t, ep, methods, h, re).accepted
    ensures OnPlain(t, ep, methods, h, re).table == t
  {
    hide Probe, Refuses, Collides, UpdateExisting, TierOf, Filled;
    if !Refuses(t, Probe(t, ep, re), methods) {
      RefusedPlainIsFresh(t, ep, methods, h, re);
      SlotsAreApart(t, |t.lambdas|, methods, h, ep.key, false);
      assert Commit(t, |t.lambdas|, methods, h).lambdas[..|t.lambdas|] == t.lambdas;
    }
  }

  lemma CommitSlots(t: Table, id: nat, methods: Mask, h: Handler)
    requires id <= |t.lambdas|
    ensures var t' := Commit(t, id, methods, h);
            && SlotsOf(t', id) == Filled(SlotsOf(t, id), methods, h)
            && |t.lambdas| <= |t'.lambdas|
            && (forall i: nat :: i != id ==> SlotsOf(t', i) == SlotsOf(t, i))
            && t'.(lambdas := t.lambdas) == t
  {
  }

  function MethodsOf(e: Option<Entry>): (m: Mask) { if e.Some? then e.value.methods else {} }

  /**
   An accepted parameterless call fills every requested slot of one lambda resource, keeps that
   resource's earlier slots, leaves every other lambda resource and every other place alone, and
   the place it writes dispatches to that resource with the earlier methods and the new ones.
   */
  lemma OnPlainFillsSlots(t: Table, ep: Endpoint, methods: Mask, h: Handler, re: Regexes)
    requires Owned(t) && ep.params == [] && OnPlain(t, ep, methods, h, re).accepted
    ensures var t' := OnPlain(t, ep, methods, h, re).table;
            var id := ShimOf(t, Probe(t, ep, re));
            && (forall m :: m in Requested(methods) ==> m in SlotsOf(t', id) && SlotsOf(t', id)[m] == h)
            && (forall m :: m in SlotsOf(t, id) ==> m in SlotsOf(t', id) && SlotsOf(t', id)[m] == SlotsOf(t, id)[m])
            && (forall i: nat :: i != id ==> SlotsOf(t', i) == SlotsOf(t, i))
            && t'.trie == t.trie
            && Probe(t', ep, re) == Some(Entry(MethodsOf(Probe(t, ep, re)) + methods, Lambda(id), false))
  {
    var existing := Probe(t, ep, re);
    var id := ShimOf(t, existing);
    ProbeOwned(t, ep, re);
    CommitSlots(t, id, methods, h);
    assert forall m :: m in Requested(methods) ==> m !in SlotsOf(t, id);
    OnPlainProbe(t, ep, methods, h, re);
    OnPlainLambdas(t, ep, methods, h, re);
    hide Probe, Commit, Requested, OnPlain, Refuses, Owned;
  }

  /** What a request finds in the trie is one of its termini. */
  lemma {:induction false} FoundOwned(node: Node<Entry>, n: nat, qs: seq<string>, re: Regexes)
    requires TrieOwned(node, n)
    ensures FromFront(node, qs, re).Some? ==> Exists(FromFront(node, qs, re).value.entry, n)
    decreases |qs|
  {
    assert Terminus(node, true) == node.prefix && Terminus(node, false) == node.exact;
    if qs != [] {
      var step := StepTo(node, qs[0], re);
      if step.Some? { FoundOwned(step.value.0, n, qs[1..], re); }
    }
  }

  lemma {:induction false} AtOwned(node: Node<Entry>, n: nat, segs: seq<string>, q: bool)
    requires TrieOwned(node, n)
    ensures At(node, segs, q).Some? ==> Exists(At(node, segs, q).value, n)
    decreases |segs|
  {
    if segs != [] {
      if segs[0] in node.children {
        AtOwned(node.children[segs[0]], n, segs[1..], q);
      } else if node.wild.Some? && IsWild(segs[0]) {
        AtOwned(node.wild.value.node, n, segs[1..], q);
      }
    }
  }

  lemma ProbeOwned(t: Table, ep: Endpoint, re: Regexes)
    requires Owned(t)
    ensures var e := Probe(t, ep, re); e.Some? ==> Exists(e.value, |t.lambdas|)
  {
    SearchFromFront(t.trie, RequestSegs(ep.key), re);
    FoundOwned(t.trie, |t.lambdas|, RequestSegs(ep.key), re);
    hide Search, FromFront, RequestSegs, TrieOwned;
    if RegexAt(t.regex, ep.key).Some? {
      var i := RegexAtIndex(t.regex, ep.key);
    }
  }

  lemma OnPlainLambdas(t: Table, ep: Endpoint, methods: Mask, h: Handler, re: Regexes)
    requires OnPlain(t, ep, methods, h, re).accepted
    ensures OnPlain(t, ep, methods, h, re).table.lambdas == Commit(t, ShimOf(t, Probe(t, ep, re)), methods, h).lambdas
    ensures OnPlain(t, ep, methods, h, re).table.trie == t.trie
  {
    hide Probe, Refuses, Filled, TierOf, Collides, MergeRegex;
  }

  lemma OnPlainProbe(t: Table, ep: Endpoint, methods: Mask, h: Handler, re: Regexes)
    requires Owned(t) && ep.params == [] && OnPlain(t, ep, methods, h, re).accepted
    ensures Probe(OnPlain(t, ep, methods, h, re).table, ep, re) ==
            Some(Entry(MethodsOf(Probe(t, ep, re)) + methods, Lambda(ShimOf(t, Probe(t, ep, re))), false))
  {
    var existing := Probe(t, ep, re);
    var id := ShimOf(t, existing);
    if existing.Some? && ep.key !in t.exact {
      MergeRegexAt(t.regex, |t.lambdas|, ep.key, methods, id, ep.key);
    } else if existing.None? && TierOf(ep, re).RegexTier? {
      RegexAtAppend(t.regex, RegexRoute(ep.key, ep.normalized, Entry(methods, Lambda(id), false)), ep.key);
    }
    assert existing.None? ==> MethodsOf(existing) + methods == methods;
    hide Commit, Filled, Collides, RegexAt, MergeRegex;
  }

  /** It changes no place but its own. */
  lemma OnPlainKeepsOtherPlaces(t: Table, ep: Endpoint, methods: Mask, h: Handler, re: Regexes, p: Place)
    requires Owned(t) && ep.params == [] && p != ExactKey(ep.key) && p != RegexKey(ep.key)
    ensures EntryAt(OnPlain(t, ep, methods, h, re).table, p) == EntryAt(t, p)
  {
    var existing := Probe(t, ep, re);
    var id := ShimOf(t, existing);
    if p.RegexKey? {
      RegexAtAppend(t.regex, RegexRoute(ep.key, ep.normalized, Entry(methods, Lambda(id), false)), p.key);
      if existing.Some? && existing.value.handler.Lambda? && ep.key !in t.exact {
        MergeRegexAt(t.regex, |t.lambdas|, ep.key, methods, id, p.key);
      }
    }
    hide Commit, Filled, Collides, RegexAt, MergeRegex, At, Refuses;
  }

  // ---- exact and prefix routes stay apart -------------------------------------------------

  /** The path has no empty segment once it is canonical. */
  predicate PlainKey(key: string) { key == Render(PathTokens(key)) }

  predicate NoWild(segs: seq<string>) { forall i :: 0 <= i < |segs| ==> !IsWild(segs[i]) }

  /** No node is both kinds of terminus, and no exact key is a prefix in the trie. */
  ghost predicate Apart(t: Table)
  {
    && Shaped(t.trie)
    && (forall segs: seq<string> :: !(At(t.trie, segs, true).Some? && At(t.trie, segs, false).Some?))
    && (forall key <- t.exact :: NoWild(PathTokens(key)) && At(t.trie, PathTokens(key), true).None?)
  }

  lemma ShapeOfNoWild(a: seq<string>, b: seq<string>)
    requires NoWild(b) && SameShape(a, b)
    ensures a == b
  {
    assert forall i :: 0 <= i < |a| ==> SameSeg(a[i], b[i]) && !IsWild(b[i]);
  }

  lemma {:induction false} SameShapeIsOnePlace<T>(n: Node<T>, a: seq<string>, b: seq<string>, q: bool)
    requires Shaped(n) && SameShape(a, b)
    ensures At(n, a, q) == At(n, b, q)
    decreases |a|
  {
    if a != [] {
      SameShapeTail(a, b);
      WalkStep(n, a);
      WalkStep(n, b);
      if HasChild(n, a[0]) { SameShapeIsOnePlace(Child(n, a[0]), a[1..], b[1..], q); }
    }
  }

  /** Putting one terminus in keeps the kinds apart exactly when the other kind is not there. */
  lemma InsertApart(t: Table, segs: seq<string>, entry: Entry, isPrefix: bool, re: Regexes)
    requires Apart(t) && !InsertFails(t.trie, segs, re)
    ensures Apart(t.(trie := Inserted(t.trie, segs, entry, isPrefix, re)))
       <==> At(t.trie, segs, !isPrefix).None? && (isPrefix ==> forall key <- t.exact :: PathTokens(key) != segs)
  {
    hide PathTokens, NoWild, Inserted, InsertFails, At, SameShape;
    var trie' := Inserted(t.trie, segs, entry, isPrefix, re);
    InsertedShaped(t.trie, segs, entry, isPrefix, re);
    SameShapeRefl(segs);
    InsertedAt(t.trie, segs, entry, isPrefix, re, segs, isPrefix);
    InsertedAt(t.trie, segs, entry, isPrefix, re, segs, !isPrefix);
    if At(t.trie, segs, !isPrefix).None? {
      forall qs: seq<string> ensures !(At(trie', qs, true).Some? && At(trie', qs, false).Some?) {
        InsertedAt(t.trie, segs, entry, isPrefix, re, qs, true);
        InsertedAt(t.trie, segs, entry, isPrefix, re, qs, false);
        if SameShape(segs, qs) { SameShapeIsOnePlace(t.trie, segs, qs, !isPrefix); }
      }
    }
    forall key <- t.exact
      ensures At(trie', PathTokens(key), true).Some? <==> isPrefix && PathTokens(key) == segs
    {
      InsertedAt(t.trie, segs, entry, isPrefix, re, PathTokens(key), true);
      if SameShape(segs, PathTokens(key)) { ShapeOfNoWild(segs, PathTokens(key)); }
    }
  }

  lemma SameShapeRefl(a: seq<string>)
    ensures SameShape(a, a)
  {
  }

  lemma FailedInsertApart(t: Table, segs: seq<string>, entry: Entry, isPrefix: bool, re: Regexes)
    requires Apart(t) && InsertFails(t.trie, segs, re)
    ensures Apart(t.(trie := Inserted(t.trie, segs, entry, isPrefix, re)))
  {
    hide PathTokens, NoWild, Inserted, InsertFails, At, SameShape;
    var trie' := Inserted(t.trie, segs, entry, isPrefix, re);
    InsertedShaped(t.trie, segs, entry, isPrefix, re);
    forall qs: seq<string>, q: bool ensures At(trie', qs, q) == At(t.trie, qs, q) {
      InsertedAt(t.trie, segs, entry, isPrefix, re, qs, q);
    }
  }

  /** register_prefix on a table whose kinds are apart: they stay apart unless an exact route has the same segments. */
  lemma PrefixStaysApart(t: Table, ep: Endpoint, res: Resource, re: Regexes)
    requires Apart(t) && Register(t, ep, res, true, re).accepted
    ensures Apart(Register(t, ep, res, true, re).table)
       <==> forall key <- t.exact :: PathTokens(key) != PathTokens(ep.key)
  {
    InsertApart(t, PathTokens(ep.key), Entry(AllMethods(), res, true), true, re);
  }

  ghost predicate AllPlain(t: Table) { forall key <- t.exact :: PlainKey(key) }

  lemma PlainKeysDiffer(t: Table, key: string)
    requires AllPlain(t) && PlainKey(key) && key !in t.exact
    ensures forall k <- t.exact :: PathTokens(k) != PathTokens(key)
  {
  }

  lemma {:induction false} NoParamsNoWild(parts: seq<string>)
    requires WellFormed(parts) && ParamNames(parts) == []
    ensures NoWild(parts)
  {
    if parts != [] {
      var n := |parts| - 1;
      NoParamsNoWild(parts[..n]);
      assert parts == parts[..n] + [parts[n]];
    }
  }

  lemma PlainEndpoint(path: string, useRegex: bool, re: Regexes)
    requires EndpointOf(path, useRegex, re).Ok?
    ensures var ep := EndpointOf(path, useRegex, re).value;
            ep.key == LookupKey(path) && (ep.params == [] ==> NoWild(PathTokens(ep.key)))
  {
    KeyTokens(path);
    hide NormalizedUrl;
    var ep := EndpointOf(path, useRegex, re).value;
    if ep.params == [] { NoParamsNoWild(PathTokens(path)); }
  }

  lemma RegisterApart(t: Table, ep: Endpoint, res: Resource, family: bool, re: Regexes)
    requires Apart(t) && AllPlain(t) && PlainKey(ep.key) && (ep.params == [] ==> NoWild(PathTokens(ep.key)))
    ensures var t' := Register(t, ep, res, family, re).table; Apart(t') && AllPlain(t')
  {
    hide PathTokens, NoWild, Inserted, InsertFails, At, AllMethods, InRegex;
    var ts, entry := PathTokens(ep.key), Entry(AllMethods(), res, family);
    HasTerminusIsAt(t.trie, ts);
    if !Guarded(t, ep, family, re) && (family || TierOf(ep, re).RadixTier?) {
      if InsertFails(t.trie, ts, re) {
        FailedInsertApart(t, ts, entry, family, re);
      } else {
        if family { PlainKeysDiffer(t, ep.key); }
        InsertApart(t, ts, entry, family, re);
      }
    }
  }

  lemma RemoveApart(t: Table, key: string, isPrefix: bool)
    requires Apart(t)
    ensures Apart(RemovePattern(t, key, isPrefix))
  {
    hide PathTokens, NoWild, Removed, At, SameShape;
    var ts := PathTokens(key);
    RemovedShaped(t.trie, ts, isPrefix);
    forall qs: seq<string>, q: bool
      ensures At(Removed(t.trie, ts, isPrefix), qs, q).Some? ==> At(t.trie, qs, q).Some?
    {
      RemovedAt(t.trie, ts, isPrefix, qs, q);
    }
  }

  lemma OnPlainApart(t: Table, ep: Endpoint, methods: Mask, h: Handler, re: Regexes)
    requires Apart(t) && AllPlain(t) && PlainKey(ep.key) && NoWild(PathTokens(ep.key))
    ensures var t' := OnPlain(t, ep, methods, h, re).table; Apart(t') && AllPlain(t')
  {
    HasTerminusIsAt(t.trie, PathTokens(ep.key));
    hide PathTokens, NoWild, Probe, Refuses, MergeRegex, Filled, Shaped, At, TierOf;
  }

  lemma OnPatternApart(t: Table, ep: Endpoint, methods: Mask, h: Handler, re: Regexes)
    requires Apart(t) && AllPlain(t)
    ensures var t' := OnPattern(t, ep, methods, h, re).table; Apart(t') && AllPlain(t')
  {
    hide PathTokens, NoWild, Probe, Refuses, Filled, Shaped, At, Inserted, InsertFails;
    var ts, existing := PathTokens(ep.key), Probe(t, ep, re);
    var id := ShimOf(t, existing);
    var entry := Merge(if existing.Some? then existing.value else Entry({}, Lambda(id), false), methods, id);
    HasTerminusIsAt(t.trie, ts);
    var written := Commit(t, id, methods, h);
    if InsertFails(t.trie, ts, re) {
      FailedInsertApart(written, ts, entry, false, re);
    } else if At(t.trie, ts, true).None? {
      InsertApart(written, ts, entry, false, re);
    }
  }

  lemma EffectApart(t: Table, c: Call, ep: Endpoint, re: Regexes)
    requires Apart(t) && AllPlain(t) && PlainKey(ep.key) && (ep.params == [] ==> NoWild(PathTokens(ep.key)))
    ensures var t' := Effect(t, c, ep, re).table; Apart(t') && AllPlain(t')
  {
    hide PathTokens, NoWild, Register, OnPlain, OnPattern, Removed, Shaped, At, WithoutKey;
    match c
    case RegisterCall(_, res, family) => if res.Some? { RegisterApart(t, ep, ClassResource(res.value), family, re); }
    case UnregisterCall(_, family) => RemoveApart(t, ep.key, family);
    case UnregisterAllCall(_) =>
      RemoveApart(EraseExactAndRegex(t, ep.key), ep.key, false);
      RemoveApart(RemovePattern(EraseExactAndRegex(t, ep.key), ep.key, false), ep.key, true);
    case OnCall(methods, _, h) =>
      if h.Some? {
        if ep.params != [] {
          OnPatternApart(t, ep, methods, h.value, re);
        } else {
          OnPlainApart(t, ep, methods, h.value, re);
        }
      }
  }

  /** The table after a sequence of calls on a new server. */
  function Performed(calls: seq<Call>, cfg: Config, re: Regexes): (t: Table)
  {
    if calls == [] then Table(map[], SegmentTrie.Empty(), [], [])
    else Perform(Performed(calls[..|calls| - 1], cfg, re), calls[|calls| - 1], cfg, re).table
  }

  lemma NewTableApart()
    ensures var t := Table(map[], SegmentTrie.Empty(), [], []); Apart(t) && AllPlain(t)
  {
    forall segs: seq<string> ensures At(SegmentTrie.Empty<Entry>(), segs, true).None? {
      WalkEmpty<Entry>(segs, true);
    }
  }

  /** Whatever is registered and unregistered under paths without empty segments, the kinds stay apart. */
  lemma {:induction false} KindsStayApart(calls: seq<Call>, cfg: Config, re: Regexes)
    requires forall i :: 0 <= i < |calls| ==> PlainKey(LookupKey(calls[i].path))
    ensures Apart(Performed(calls, cfg, re)) && AllPlain(Performed(calls, cfg, re))
  {
    if calls == [] {
      NewTableApart();
    } else {
      var before, c := calls[..|calls| - 1], calls[|calls| - 1];
      KindsStayApart(before, cfg, re);
      var ep := EndpointOf(c.path, cfg.regexChecking, re);
      hide EndpointOf, LookupKey, PlainKey, NoWild, Effect, Apart, AllPlain, InputsOk;
      if ep.Ok? {
        PlainEndpoint(c.path, cfg.regexChecking, re);
        EffectApart(Performed(before, cfg, re), c, ep.value, re);
      }
    }
  }

  // ---- lambda routes with parameters --------------------------------------------------------

  /**
   An accepted call on a path with parameters writes one place and one lambda resource: the one
   behind whatever entry the pattern text finds as a request, or a new one when it finds none.
   */
  lemma OnPatternWrites(t: Table, ep: Endpoint, methods: Mask, h: Handler, re: Regexes, qs: seq<string>, q: bool)
    requires Shaped(t.trie) && ep.params != [] && OnPattern(t, ep, methods, h, re).accepted
    requires Probe(t, ep, re).Some? ==> Exists(Probe(t, ep, re).value, |t.lambdas|)
    ensures var e := Probe(t, ep, re);
            var id := ShimOf(t, e);
            var t' := OnPattern(t, ep, methods, h, re).table;
            && t'.exact == t.exact && t'.regex == t.regex
            && At(t'.trie, qs, q) ==
                 (if SameShape(PathTokens(ep.key), qs) && !q
                  then Some(Entry(MethodsOf(e) + methods, Lambda(id), false))
                  else At(t.trie, qs, q))
            && SlotsOf(t', id) == Filled(SlotsOf(t, id), methods, h)
            && (forall i: nat :: i != id ==> SlotsOf(t', i) == SlotsOf(t, i))
  {
    var e := Probe(t, ep, re);
    var id := ShimOf(t, e);
    CommitSlots(t, id, methods, h);
    var entry := Merge(if e.Some? then e.value else Entry({}, Lambda(id), false), methods, id);
    InsertedAt(t.trie, PathTokens(ep.key), entry, false, re, qs, q);
    hide Probe, Refuses, Filled, At, Inserted, InsertFails, PathTokens, SameShape, Collides;
  }

  /** A refused call that got past the probe keeps its writes to a lambda resource it found. */
  lemma RefusedPatternLambdas(t: Table, ep: Endpoint, methods: Mask, h: Handler, re: Regexes)
    requires !OnPattern(t, ep, methods, h, re).accepted && !Refuses(t, Probe(t, ep, re), methods)
    requires ShimOf(t, Probe(t, ep, re)) <= |t.lambdas|
    ensures var id, t' := ShimOf(t, Probe(t, ep, re)), OnPattern(t, ep, methods, h, re).table;
            && t'.lambdas == (if id < |t.lambdas| then t.lambdas[id := Filled(t.lambdas[id], methods, h)]
                 else t.lambdas)
            && t'.exact == t.exact && t'.regex == t.regex
            && (Collides(t, ep.key, false) ==> t'.trie == t.trie)
            && (!Collides(t, ep.key, false) ==> InsertFails(t.trie, PathTokens(ep.key), re) && exists e: Entry ::
                  t'.trie == Inserted(t.trie, PathTokens(ep.key), e, false, re))
  {
    hide Probe, Refuses, Filled, Collides, Inserted, InsertFails, PathTokens;
    var id := ShimOf(t, Probe(t, ep, re));
    SlotsAreApart(t, id, methods, h, ep.key, false);
    var w := Commit(t, id, methods, h);
    assert id == |t.lambdas| ==> w.lambdas[..|t.lambdas|] == t.lambdas;
    assert id < |t.lambdas| ==> w.lambdas[..|t.lambdas|] == w.lambdas;
  }

  /**
   A refused call on a path with parameters leaves everything as it was exactly when the lambda resource refused it, or
   the pattern text found no entry and a prefix stands at its place. Otherwise its handler stays behind in the slots of
   the route it found, or a half-made pattern in the trie.
   */
  lemma OnPatternAllOrNothing(t: Table, ep: Endpoint, methods: Mask, h: Handler, re: Regexes)
    requires Requested(methods) != {} && !OnPattern(t, ep, methods, h, re).accepted
    requires Probe(t, ep, re).Some? ==> Exists(Probe(t, ep, re).value, |t.lambdas|)
    ensures OnPattern(t, ep, methods, h, re).table == t
       <==> Refuses(t, Probe(t, ep, re), methods) || (Probe(t, ep, re).None? && Collides(t, ep.key, false))
  {
    hide Probe, Collides, Inserted, InsertFails, PathTokens, OnPattern, Filled;
    var e, t' := Probe(t, ep, re), OnPattern(t, ep, methods, h, re).table;
    if Refuses(t, e, methods) {
      RefusedOutright(t, ep, methods, h, re);
    } else {
      RefusedPatternLambdas(t, ep, methods, h, re);
      if !Collides(t, ep.key, false) {
        var entry: Entry :| t'.trie == Inserted(t.trie, PathTokens(ep.key), entry, false, re);
        FailedInsertChanges(t.trie, PathTokens(ep.key), entry, false, re);
      }
      if e.Some? { FilledChanges(t.lambdas[e.value.handler.id], methods, h); }
    }
  }

  lemma RefusedOutright(t: Table, ep: Endpoint, methods: Mask, h: Handler, re: Regexes)
    requires Refuses(t, Probe(t, ep, re), methods)
    ensures OnPattern(t, ep, methods, h, re) == Outcome(t, false)
  {
    hide Refuses, Probe;
  }

  lemma FilledChanges(slots: Slots, methods: Mask, h: Handler)
    requires Requested(methods) != {} && Requested(methods) !! slots.Keys
    ensures Filled(slots, methods, h) != slots
  {
    var m :| m in Requested(methods);
    assert m in Filled(slots, methods, h);
  }

  /** Every handler of `was` is still there in `now`, method by method. */
  ghost predicate KeptIn(was: Slots, now: Slots) { forall m <- was :: m in now && now[m] == was[m] }

  /**
   A later call keeps the handlers of the place it writes exactly when, for every method they serve, the probed lambda
   resource has that very handler too and the call does not bring its own, or the call brings that handler again.
   */
  lemma OnPatternKeepsHandlers(t: Table, ep: Endpoint, methods: Mask, h: Handler, re: Regexes, was: Entry)
    requires Shaped(t.trie) && ep.params != [] && OnPattern(t, ep, methods, h, re).accepted
    requires Probe(t, ep, re).Some? ==> Exists(Probe(t, ep, re).value, |t.lambdas|)
    requires At(t.trie, PathTokens(ep.key), false) == Some(was) && was.handler.Lambda?
    ensures var t' := OnPattern(t, ep, methods, h, re).table;
            var now := At(t'.trie, PathTokens(ep.key), false);
            var found := SlotsOf(t, ShimOf(t, Probe(t, ep, re)));
            && now.Some? && now.value.handler == Lambda(ShimOf(t, Probe(t, ep, re)))
            && (KeptIn(SlotsOf(t, was.handler.id), SlotsOf(t', now.value.handler.id))
                <==> forall m <- SlotsOf(t, was.handler.id) ::
                       if m in Requested(methods) then SlotsOf(t, was.handler.id)[m] == h
                       else m in found && found[m] == SlotsOf(t, was.handler.id)[m])
  {
    hide Probe, Refuses, OnPattern, At, Shaped, PathTokens, Requested;
    SameShapeRefl(PathTokens(ep.key));
    OnPatternWrites(t, ep, methods, h, re, PathTokens(ep.key), false);
  }

  /**
   When the probe finds the place's own lambda resource nothing is lost; when it finds nothing, everything is but what
   the call brings.
   */
  lemma OnPatternKeepsItsOwn(t: Table, ep: Endpoint, methods: Mask, h: Handler, re: Regexes, was: Entry)
    requires Shaped(t.trie) && ep.params != [] && OnPattern(t, ep, methods, h, re).accepted
    requires At(t.trie, PathTokens(ep.key), false) == Some(was) && was.handler.Lambda? && was.handler.id < |t.lambdas|
    requires Probe(t, ep, re).None? || Probe(t, ep, re).value.handler == was.handler
    ensures var t' := OnPattern(t, ep, methods, h, re).table;
            var now := At(t'.trie, PathTokens(ep.key), false);
            && now.Some? && now.value.handler.Lambda?
            && (KeptIn(SlotsOf(t, was.handler.id), SlotsOf(t', now.value.handler.id))
                <==> Probe(t, ep, re).Some? || forall m <- SlotsOf(t, was.handler.id) ::
                                                 m in Requested(methods) && SlotsOf(t, was.handler.id)[m] == h)
  {
    OnPatternKeepsHandlers(t, ep, methods, h, re, was);
    assert Probe(t, ep, re).Some? ==> forall m :: m in Requested(methods) ==> m !in SlotsOf(t, was.handler.id);
    hide Probe, OnPattern, At, Shaped, PathTokens, Requested;
  }

  /** A constraint is matched against the pattern text, which need not satisfy it: the route does not find itself. */
  lemma ConstraintHidesItsOwnRoute(n: Node<Entry>, seg: string, c: string, leaf: Node<Entry>, name: string, re: Regexes)
    requires IsWild(seg) && seg !in n.children && c != "" && !re.matches(c, seg)
    requires n.wild == Some(Wild(name, c, leaf)) && leaf.exact.Some?
    ensures At(n, [seg], false) == leaf.exact
    ensures Search(n, [seg], re).None? || Search(n, [seg], re).value.isPrefix
  {
    assert At(n, [seg], false) == leaf.exact by {
      hide Search, Reach, Deepest;
      assert [seg][1..] == [];
      assert Walk(leaf, []) == Some(leaf);
    }
    hide At, Walk;
    RefusedSegment(n, seg, re);
  }

  lemma RefusedSegment(n: Node<Entry>, seg: string, re: Regexes)
    requires StepTo(n, seg, re).None?
    ensures Search(n, [seg], re).None? || Search(n, [seg], re).value.isPrefix
  {
    hide StepTo;
    ReachStep(n, [], seg, re);
    assert [] + [seg] == [seg] && [seg][..1] == [seg] && [seg][..0] == [];
    assert Reach(n, [seg], re).None?;
    assert Deepest(n, [seg], 1, re) == Deepest(n, [seg], 0, re);
  }

  /** Nor is what it finds its own: "a/{id}" as a request runs into the route "{x}/{y}". */
  lemma ProbeFindsAnotherRoute(e: Entry, re: Regexes)
    ensures var leaf := Node(map[], None, Some(e), None);
            var n := Node(map[], Some(Wild("x", "", Node(map[], Some(Wild("y", "", leaf)), None, None))), None, None);
            && At(n, ["a", "{id}"], false) == None
            && Search(n, ["a", "{id}"], re) == Some(Match(e, [("x", "a"), ("y", "{id}")], false))
  {
    var leaf := Node(map[], None, Some(e), None);
    var mid := Node(map[], Some(Wild("y", "", leaf)), None, None);
    var n := Node(map[], Some(Wild("x", "", mid)), None, None);
    ReachStep(n, [], "a", re);
    var none: Captures := [];
    assert [] + ["a"] == ["a"] && ["a"] + ["{id}"] == ["a", "{id}"] && none + [("x", "a")] == [("x", "a")];
    assert Reach(n, ["a"], re) == Some((mid, [("x", "a")]));
    ReachStep(n, ["a"], "{id}", re);
    assert [("x", "a")] + [("y", "{id}")] == [("x", "a"), ("y", "{id}")];
  }

  // ---- ownership over runs -----------------------------------------------------------------

  lemma {:induction false} WithoutIsOwned(regex: seq<RegexRoute>, n: nat, key: string)
    requires RegexOwned(regex, n)
    ensures RegexOwned(WithoutKey(regex, key), n)
    ensures forall r <- WithoutKey(regex, key) :: r in regex
  {
    if regex != [] {
      RegexOwnedTail(regex, n);
      WithoutIsOwned(regex[1..], n, key);
      var rest := WithoutKey(regex[1..], key);
      if regex[0].key == key {
        assert WithoutKey(regex, key) == rest;
      } else {
        assert WithoutKey(regex, key) == [regex[0]] + rest;
        forall j | 0 <= j < |rest| && regex[0].entry.handler.Lambda?
          ensures rest[j].entry.handler != regex[0].entry.handler
        {
          assert rest[j] in regex[1..];
        }
      }
    }
  }

  lemma {:induction false} MergeRegexHandlers(regex: seq<RegexRoute>, methods: Mask, id: nat)
    ensures |MergeRegex(regex, methods, id)| == |regex|
    ensures forall i :: 0 <= i < |regex| ==> MergeRegex(regex, methods, id)[i].entry.handler == regex[i].entry.handler
  {
    if regex != [] { MergeRegexHandlers(regex[1..], methods, id); }
  }

  lemma {:induction false} TrieOwnedMore(node: Node<Entry>, n: nat, m: nat)
    requires TrieOwned(node, n) && n <= m
    ensures TrieOwned(node, m)
    decreases node
  {
    forall k <- node.children ensures TrieOwned(node.children[k], m) { TrieOwnedMore(node.children[k], n, m); }
    if node.wild.Some? { TrieOwnedMore(node.wild.value.node, n, m); }
  }

  lemma WithChildOwned(node: Node<Entry>, n: nat, seg: string, c: Node<Entry>)
    requires TrieOwned(node, n) && TrieOwned(c, n)
    ensures TrieOwned(WithChild(node, seg, c), n) && TrieOwned(Child(node, seg), n)
  {
    var node' := WithChild(node, seg, c);
    assert forall q: bool :: Terminus(node', q) == Terminus(node, q);
  }

  /** An insertion that throws adds no terminus, any other one only its own. */
  lemma {:induction false} InsertedOwned(node: Node<Entry>, n: nat, segs: seq<string>, entry: Entry, q: bool,
                                         re: Regexes)
    requires TrieOwned(node, n) && (InsertFails(node, segs, re) || Exists(entry, n))
    ensures TrieOwned(Inserted(node, segs, entry, q, re), n)
    decreases |segs|
  {
    if segs == [] {
      assert forall p: bool :: Terminus(WithTerminus(node, q, Some(entry)), p) == if p == q then Some(entry)
          else Terminus(node, p);
    } else if Throws(node, segs[0], re) {
      assert forall p: bool :: Terminus(Thrown(node, segs[0]), p) == Terminus(node, p);
    } else {
      WithChildOwned(node, n, segs[0], SegmentTrie.Empty());
      InsertedOwned(Child(node, segs[0]), n, segs[1..], entry, q, re);
      WithChildOwned(node, n, segs[0], Inserted(Child(node, segs[0]), segs[1..], entry, q, re));
    }
  }

  lemma {:induction false} RemovedOwned(node: Node<Entry>, n: nat, segs: seq<string>, q: bool)
    requires TrieOwned(node, n)
    ensures TrieOwned(Removed(node, segs, q), n)
    decreases |segs|
  {
    var r := Removed(node, segs, q);
    if segs == [] {
      assert forall p: bool :: Terminus(r, p) == if p == q then None else Terminus(node, p);
    } else {
      assert forall p: bool :: Terminus(r, p) == Terminus(node, p);
      if segs[0] in node.children {
        RemovedOwned(node.children[segs[0]], n, segs[1..], q);
      } else if node.wild.Some? && IsWild(segs[0]) {
        RemovedOwned(node.wild.value.node, n, segs[1..], q);
      }
    }
  }

  /** Ownership looks only at handlers, and more lambda resources do no harm. */
  lemma OwnedSame(t: Table, t': Table)
    requires Owned(t) && |t.lambdas| <= |t'.lambdas| && |t'.regex| == |t.regex| && TrieOwned(t'.trie, |t'.lambdas|)
    requires forall k <- t'.exact :: k in t.exact && t'.exact[k].handler == t.exact[k].handler
    requires forall i :: 0 <= i < |t.regex| ==> t'.regex[i].entry.handler == t.regex[i].entry.handler
    ensures Owned(t')
  {
  }

  /** A new entry is owned when its lambda resource is new. */
  lemma OwnedMore(t: Table, key: string, route: RegexRoute, entry: Entry)
    requires Owned(t)
    requires Exists(entry, |t.lambdas|) && Exists(route.entry, |t.lambdas|)
    requires route.entry.handler.Lambda? ==>
               forall i :: 0 <= i < |t.regex| ==> t.regex[i].entry.handler != route.entry.handler
    ensures Owned(t.(exact := t.exact[key := entry])) && Owned(t.(regex := t.regex + [route]))
  {
    var regex := t.regex + [route];
    assert forall i :: 0 <= i < |t.regex| ==> regex[i] == t.regex[i];
    assert RegexOwned(regex, |t.lambdas|);
  }

  lemma OnPlainOwned(t: Table, ep: Endpoint, methods: Mask, h: Handler, re: Regexes)
    requires Owned(t) && ep.params == []
    ensures Owned(OnPlain(t, ep, methods, h, re).table)
  {
    ProbeOwned(t, ep, re);
    var existing := Probe(t, ep, re);
    var id := ShimOf(t, existing);
    MergeRegexHandlers(t.regex, methods, id);
    CommitSlots(t, id, methods, h);
    var written := Commit(t, id, methods, h);
    TrieOwnedMore(t.trie, |t.lambdas|, |written.lambdas|);
    OwnedSame(t, written);
    assert existing.Some? && ep.key in t.exact && !Refuses(t, existing, methods)
        ==> t.exact[ep.key].handler == Lambda(id);
    if existing.None? {
      var entry := Entry(methods, Lambda(id), false);
      assert forall i :: 0 <= i < |t.regex| ==> t.regex[i].entry.handler != Lambda(id);
      hide Owned, Probe, Refuses, Filled, TierOf, Collides, Commit;
      OwnedMore(written, ep.key, RegexRoute(ep.key, ep.normalized, entry), entry);
    } else {
      hide Owned, Probe, Refuses, MergeRegex, Filled, TierOf, Collides, Commit;
      OwnedSame(t, OnPlain(t, ep, methods, h, re).table);
    }
  }

  lemma RegisterOwned(t: Table, ep: Endpoint, id: nat, family: bool, re: Regexes)
    requires Owned(t)
    ensures Owned(Register(t, ep, ClassResource(id), family, re).table)
  {
    hide Owned, TierOf, Guarded, Inserted, InsertFails, PathTokens, AllMethods;
    var entry := Entry(AllMethods(), ClassResource(id), family);
    OwnedMore(t, ep.key, RegexRoute(ep.key, ep.normalized, entry), entry);
    InsertedOwned(t.trie, |t.lambdas|, PathTokens(ep.key), entry, family, re);
    OwnedSame(t, t.(trie := Inserted(t.trie, PathTokens(ep.key), entry, family, re)));
  }

  /**
   A call on a path with parameters: the same tiers, the same or one more lambda resource, the trie written or not.
   */
  lemma OnPatternParts(t: Table, ep: Endpoint, methods: Mask, h: Handler, re: Regexes)
    requires ShimOf(t, Probe(t, ep, re)) <= |t.lambdas|
    ensures var o := OnPattern(t, ep, methods, h, re);
            var id := ShimOf(t, Probe(t, ep, re));
            && o.table.exact == t.exact && o.table.regex == t.regex && |t.lambdas| <= |o.table.lambdas|
            && (o.accepted ==> id < |o.table.lambdas| && !InsertFails(t.trie, PathTokens(ep.key), re))
            && (o.table.trie != t.trie ==>
                  && (o.accepted || InsertFails(t.trie, PathTokens(ep.key), re))
                  && exists e: Entry ::
                       e.handler == Lambda(id) && o.table.trie == Inserted(t.trie, PathTokens(ep.key), e, false, re))
  {
    var e := Probe(t, ep, re);
    var id := ShimOf(t, e);
    hide Probe, Refuses, Filled, Collides, Inserted, InsertFails, PathTokens;
    CommitSlots(t, id, methods, h);
    var entry := Merge(if e.Some? then e.value else Entry({}, Lambda(id), false), methods, id);
    assert entry.handler == Lambda(id);
  }

  lemma OnPatternOwned(t: Table, ep: Endpoint, methods: Mask, h: Handler, re: Regexes)
    requires Owned(t)
    ensures Owned(OnPattern(t, ep, methods, h, re).table)
  {
    var o := OnPattern(t, ep, methods, h, re);
    ProbeOwned(t, ep, re);
    OnPatternParts(t, ep, methods, h, re);
    hide OnPattern, TrieOwned, Probe, InsertFails, Inserted, PathTokens;
    var n := |o.table.lambdas|;
    TrieOwnedMore(t.trie, |t.lambdas|, n);
    if o.table.trie != t.trie {
      var e: Entry :| e.handler == Lambda(ShimOf(t, Probe(t, ep, re)))
        && o.table.trie == Inserted(t.trie, PathTokens(ep.key), e, false, re);
      InsertedOwned(t.trie, n, PathTokens(ep.key), e, false, re);
    }
    OwnedSame(t, o.table);
  }

  lemma UnregisterOwned(t: Table, key: string, q: bool)
    requires Owned(t)
    ensures Owned(EraseExactAndRegex(t, key)) && Owned(RemovePattern(t, key, q))
  {
    WithoutIsOwned(t.regex, |t.lambdas|, key);
    RemovedOwned(t.trie, |t.lambdas|, PathTokens(key), q);
    hide WithoutKey, Removed, PathTokens, RegexOwned, TrieOwned;
  }

  lemma EffectOwned(t: Table, c: Call, ep: Endpoint, re: Regexes)
    requires Owned(t)
    ensures Owned(Effect(t, c, ep, re).table)
  {
    hide OnPlain, OnPattern, Register, EraseExactAndRegex, RemovePattern, Owned;
    match c
    case RegisterCall(_, res, family) => if res.Some? { RegisterOwned(t, ep, res.value, family, re); }
    case OnCall(methods, _, h) =>
      if h.Some? {
        if ep.params != [] {
          OnPatternOwned(t, ep, methods, h.value, re);
        } else {
          OnPlainOwned(t, ep, methods, h.value, re);
        }
      }
    case UnregisterCall(_, family) => UnregisterOwned(t, ep.key, family);
    case UnregisterAllCall(_) =>
      var erased := EraseExactAndRegex(t, ep.key);
      UnregisterOwned(t, ep.key, false);
      UnregisterOwned(erased, ep.key, false);
      UnregisterOwned(RemovePattern(erased, ep.key, false), ep.key, true);
  }

  /** The lambda resources of all routes are owned in every state a server can reach. */
  lemma {:induction false} AlwaysOwned(calls: seq<Call>, cfg: Config, re: Regexes)
    ensures Owned(Performed(calls, cfg, re))
  {
    if calls != [] {
      var before, c := calls[..|calls| - 1], calls[|calls| - 1];
      AlwaysOwned(before, cfg, re);
      var ep := EndpointOf(c.path, cfg.regexChecking, re);
      hide EndpointOf, Effect, Owned, InputsOk;
      if ep.Ok? { EffectOwned(Performed(before, cfg, re), c, ep.value, re); }
    }
  }

  /** So in every such state the lambda resource a call finds or replaces is there. */
  lemma ReachableLambdasExist(calls: seq<Call>, cfg: Config, re: Regexes, ep: Endpoint, segs: seq<string>, q: bool)
    ensures var t := Performed(calls, cfg, re);
            && (Probe(t, ep, re).Some? ==> Exists(Probe(t, ep, re).value, |t.lambdas|))
            && (At(t.trie, segs, q).Some? ==> Exists(At(t.trie, segs, q).value, |t.lambdas|))
  {
    hide Probe, At, TrieOwned, Performed, Exists, RegexOwned;
    var t := Performed(calls, cfg, re);
    AlwaysOwned(calls, cfg, re);
    ProbeOwned(t, ep, re);
    AtOwned(t.trie, |t.lambdas|, segs, q);
  }
}
