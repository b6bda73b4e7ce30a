/**
 Which registrations are accepted, and that an accepted one is what its requests are answered with.
 */
module RouteAnswers {
  import opened Wrappers
  import opened Paths
  import opened SegmentTrie
  import opened TrieLookup
  import opened Endpoint
  import opened Routes
  import opened RouteLaws

  /** The calls that are refused before anything is looked at. */
  lemma CheckedInputs(cfg: Config, c: Call)
    ensures c.RegisterCall? ==>
              (InputsOk(cfg, c) <==>
                 && c.res.Some? && '\0' !in c.path
                 && (cfg.singleResource ==> c.family && (c.path == "" || c.path == "/")))
    ensures c.OnCall? ==>
              (InputsOk(cfg, c) <==>
                 && (exists m :: m in c.methods && m < 9) && c.h.Some? && '\0' !in c.path && |c.path| <= 8192
                 && (cfg.singleResource ==> c.path == "" || c.path == "/"))
    ensures c.UnregisterCall? || c.UnregisterAllCall? ==> InputsOk(cfg, c)
  {
    if c.OnCall? && Requested(c.methods) != {} {
      var m :| m in Requested(c.methods);
      assert m in c.methods && m < 9;
    }
    if c.OnCall? && exists m :: m in c.methods && m < 9 {
      var m :| m in c.methods && m < 9;
      assert m in Requested(c.methods);
    }
  }

  /**
   A registration is accepted exactly when its place is free, the other kind does not have its key or pattern, and
   every constraint it would make compiles.
   */
  lemma RegisterAcceptedExactly(t: Table, ep: Endpoint, res: Resource, family: bool, re: Regexes)
    ensures var place, segs := PlaceOf(ep, family, re), PathTokens(ep.key);
            Register(t, ep, res, family, re).accepted <==>
              && EntryAt(t, place).None?
              && (if family then ep.key !in t.exact && At(t.trie, segs, false).None? else At(t.trie, segs, true).None?)
              && (place.Pattern? ==> !InsertFails(t.trie, segs, re))
  {
    hide At, PathTokens, InsertFails, Inserted, RegexAt, InRegex, AllMethods;
    InRegexIff(t.regex, ep.key);
  }

  /** What a parameterless lambda call finds: the exact route of its key, or with regex checking the regex route. */
  function Existing(t: Table, ep: Endpoint): (e: Option<Entry>)
  {
    if EntryAt(t, ExactKey(ep.key)).Some? then EntryAt(t, ExactKey(ep.key))
    else if ep.compiled then EntryAt(t, RegexKey(ep.key))
    else None
  }

  /** No slot the call asks for is taken. */
  predicate SlotsFree(t: Table, e: Entry, methods: Mask)
  {
    e.handler.Lambda? && forall m :: m in methods && m < 9 ==> m !in SlotsOf(t, e.handler.id)
  }

  /**
   A parameterless lambda call is accepted exactly when it finds its own kind of route with the slots free, or finds
   none and no prefix stands at its key, which does not matter to a pattern of the regex tier.
   */
  lemma OnPlainAcceptedExactly(t: Table, ep: Endpoint, methods: Mask, h: Handler, re: Regexes)
    requires ep.params == []
    ensures OnPlain(t, ep, methods, h, re).accepted <==>
              match Existing(t, ep)
              case Some(e) => SlotsFree(t, e, methods)
              case None =>
                (ep.compiled && !re.matches(ep.normalized, ep.key)) || At(t.trie, PathTokens(ep.key), true).None?
  {
    hide At, PathTokens, RegexAt, Commit, UpdateExisting;
    SlotsAreApart(t, ShimOf(t, Probe(t, ep, re)), methods, h, ep.key, false);
    FreeIs(t, Probe(t, ep, re), methods);
  }

  lemma FreeIs(t: Table, e: Option<Entry>, methods: Mask)
    ensures e.Some? ==> (Refuses(t, e, methods) <==> !SlotsFree(t, e.value, methods))
  {
    assert forall m :: m in Requested(methods) <==> m in methods && m < 9;
  }

  /**
   One with parameters, when what its text finds as a request has the slots free or is nothing, and it can be placed.
   */
  lemma OnPatternAcceptedExactly(t: Table, ep: Endpoint, methods: Mask, h: Handler, re: Regexes)
    requires ep.params != []
    ensures var m := Search(t.trie, RequestSegs(ep.key), re);
            var e := if m.Some? && !m.value.isPrefix then Some(m.value.entry) else None;
            OnPattern(t, ep, methods, h, re).accepted <==>
              && (e.Some? ==> SlotsFree(t, e.value, methods))
              && At(t.trie, PathTokens(ep.key), true).None? && !InsertFails(t.trie, PathTokens(ep.key), re)
  {
    hide At, PathTokens, Search, RequestSegs, InsertFails, Inserted, Commit;
    SlotsAreApart(t, ShimOf(t, Probe(t, ep, re)), methods, h, ep.key, false);
    FreeIs(t, Probe(t, ep, re), methods);
  }

  /** A parameterless path that is registered answers its own requests, unless it is a pattern of the regex tier. */
  lemma RegisteredPathAnswers(t: Table, ep: Endpoint, res: Resource, path: string, re: Regexes)
    requires ep.params == [] && LookupKey(path) == ep.key && Register(t, ep, res, false, re).accepted
    requires !ep.compiled || re.matches(ep.normalized, ep.key)
    ensures Answer(Register(t, ep, res, false, re).table, path, re) == Some(Hit(Entry(AllMethods(), res, false), []))
  {
    hide Guarded, AllMethods, LookupKey;
  }

  /** A path registered in the regex tier answers only requests that nothing registered before it answers. */
  lemma LaterRegexRegistration(t: Table, ep: Endpoint, res: Resource, path: string, re: Regexes)
    requires TierOf(ep, re).RegexTier? && Register(t, ep, res, false, re).accepted
    ensures var was, now := Answer(t, path, re), Answer(Register(t, ep, res, false, re).table, path, re);
            now == if was.Some? then was
                   else if re.matches(ep.normalized, LookupKey(path))
                       then Some(Hit(Entry(AllMethods(), res, false), []))
                   else None
  {
    hide Answer, TierOf, Guarded, AllMethods, LookupKey;
    LaterRegexRoute(t, RegexRoute(ep.key, ep.normalized, Entry(AllMethods(), res, false)), path, re);
  }

  /** A registered pattern answers every request that follows it to the end. */
  lemma RegisteredPatternAnswers(t: Table, ep: Endpoint, res: Resource, qs: seq<string>, p: seq<string>, re: Regexes)
    requires Shaped(t.trie) && ep.params != [] && Register(t, ep, res, false, re).accepted
    requires SameShape(PathTokens(ep.key), p) && Follows(Register(t, ep, res, false, re).table.trie, qs, p, re)
    ensures var trie := Register(t, ep, res, false, re).table.trie;
            Search(trie, qs, re) == Some(Match(Entry(AllMethods(), res, false), CapturesOf(trie, qs, p), false))
  {
    hide Guarded, AllMethods, PathTokens, Inserted, InsertFails, At, SameShape, FollowsAt, Search, Shaped;
    var segs, entry := PathTokens(ep.key), Entry(AllMethods(), res, false);
    var trie := Register(t, ep, res, false, re).table.trie;
    InsertedShaped(t.trie, segs, entry, false, re);
    InsertedAt(t.trie, segs, entry, false, re, p, false);
    SearchIsDeepest(trie, qs, re);
  }

  /** A registered prefix answers every request that passes it and nothing further along. */
  lemma RegisteredPrefixAnswers(t: Table, ep: Endpoint, res: Resource, qs: seq<string>, k: nat, p: seq<string>,
                                re: Regexes)
    requires Shaped(t.trie) && k <= |qs| && Register(t, ep, res, true, re).accepted && SameShape(PathTokens(ep.key), p)
    requires var trie := Register(t, ep, res, true, re).table.trie;
             && Follows(trie, qs[..k], p, re) && !EndsOn(trie, qs, re)
             && forall i :: k < i <= |qs| ==> !Passes(trie, qs, i, re)
    ensures var trie := Register(t, ep, res, true, re).table.trie;
            Search(trie, qs, re) == Some(Match(Entry(AllMethods(), res, true), CapturesOf(trie, qs[..k], p), true))
  {
    hide Guarded, AllMethods, PathTokens, Inserted, InsertFails, At, SameShape, FollowsAt, Search, Shaped;
    var segs, entry := PathTokens(ep.key), Entry(AllMethods(), res, true);
    var trie := Register(t, ep, res, true, re).table.trie;
    InsertedShaped(t.trie, segs, entry, true, re);
    InsertedAt(t.trie, segs, entry, true, re, p, true);
    SearchIsDeepest(trie, qs, re);
  }
}
