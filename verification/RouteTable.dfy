/**
 The route table object: lookups through the cache, and the calls that change the tiers and
 then clear the cache. Every lookup answers as the table without a cache would.
 */
module RouteTable {
  import opened Wrappers
  import opened Paths
  import opened SegmentTrie
  import opened Endpoint
  import opened Routes
  import opened RouteCache

  datatype CacheKey = CacheKey(verb: nat, path: string)

  type CacheItem = Item<CacheKey, Hit>

  /** Every cached value is what the radix and regex tiers answer now, except for the requests in `lost`. */
  ghost predicate Coherent(list: seq<CacheItem>, t: Table, re: Regexes, lost: iset<string>)
  {
    forall i :: 0 <= i < |list| ==> list[i].key.path in lost || Tail(t, list[i].key.path, re) == Some(list[i].value)
  }

  lemma CoherentTouched(list: seq<CacheItem>, t: Table, re: Regexes, lost: iset<string>, capacity: nat, key: CacheKey,
                        v: Hit)
    requires Coherent(list, t, re, lost) && (key.path in lost || Tail(t, key.path, re) == Some(v))
    ensures Coherent(Touched(list, capacity, key, v), t, re, lost)
  {
    hide Tail, Position;
    var cut := Cut(list, Position(list, key));
    assert forall i :: 0 <= i < |cut| ==> cut[i] in list;
  }

  /**
   Whatever a call does, accepted, refused or torn, the cache stays coherent but for the requests it may have lost.
   */
  lemma StillCoherent(list: seq<CacheItem>, list': seq<CacheItem>, t: Table, lost: iset<string>, c: Call, cfg: Config,
                      re: Regexes)
    requires Shaped(t.trie) && Coherent(list, t, re, lost)
    requires list' == if Perform(t, c, cfg, re).accepted then [] else list
    ensures Coherent(list', Perform(t, c, cfg, re).table, re, LostAfter(lost, t, c, cfg, re))
  {
    hide Perform, Tears, Shaped, LostKeys;
    if !Perform(t, c, cfg, re).accepted {
      if Tears(t, c, cfg, re) {
        hide Tail;
        forall i | 0 <= i < |list|
          ensures list[i].key.path in LostAfter(lost, t, c, cfg, re)
               || Tail(Perform(t, c, cfg, re).table, list[i].key.path, re) == Some(list[i].value)
        {
          TornTail(t, c, cfg, re, list[i].key.path);
        }
      } else {
        RefusedKeepsTiers(t, c, cfg, re);
      }
    }
  }

  /** What a lookup sees: the exact tier, then the cache, then the other tiers. */
  function Seen(list: seq<CacheItem>, t: Table, verb: nat, path: string, lands: bool, re: Regexes): (r: Option<Hit>)
  {
    var key := LookupKey(path);
    var i := Position(list, CacheKey(verb, key));
    if key in t.exact then Some(Hit(t.exact[key], []))
    else if lands && i < |list| then Some(list[i].value)
    else Tail(t, key, re)
  }

  /** for_each_requested_method, collected in order. */
  method CollectRequested(methods: Mask) returns (buf: array<nat>, count: nat)
    ensures fresh(buf) && count <= buf.Length
    ensures forall m :: m in buf[..count] <==> m in Requested(methods)
  {
    buf := new nat[METHOD_COUNT];
    count := 0;
    var i := 0;
    while i < METHOD_COUNT
      invariant i <= METHOD_COUNT && count <= i
      invariant forall m :: m in buf[..count] <==> m in methods && m < i
    {
      if i in methods {
        ghost var before := buf[..count];
        buf[count] := i;
        count := count + 1;
        assert buf[..count] == before + [i];
      }
      i := i + 1;
    }
  }

  /** The slots after the first `ms` of the requested methods were set. */
  ghost predicate SetSo(r: Slots, slots: Slots, ms: seq<nat>, h: Handler)
  {
    && (forall m :: m in r <==> m in slots || m in ms)
    && (forall m :: m in r ==> r[m] == if m in ms then h else slots[m])
  }

  lemma SetNext(r: Slots, slots: Slots, ms: seq<nat>, h: Handler, m: nat)
    requires SetSo(r, slots, ms, h)
    ensures SetSo(r[m := h], slots, ms + [m], h)
  {
  }

  lemma SetAll(r: Slots, slots: Slots, ms: seq<nat>, h: Handler, methods: Mask)
    requires SetSo(r, slots, ms, h) && forall m :: m in ms <==> m in Requested(methods)
    ensures r == Filled(slots, methods, h)
  {
    hide Requested;
  }

  /**
   commit_handlers_to_shim: all but the last slot get a copy, the last gets the handler itself, which is then gone.
   */
  method CommitHandlers(slots: Slots, methods: Mask, h: Handler) returns (r: Slots)
    ensures r == Filled(slots, methods, h)
  {
    hide SetSo, Requested, Filled;
    var buf, count := CollectRequested(methods);
    ghost var ms := buf[..count];
    r := slots;
    var handler, i := Some(h), 0;
    SetNone(slots, h);
    assert ms[..0] == [];
    while i < count
      invariant i <= count && (i < count ==> handler == Some(h))
      invariant buf[..count] == ms && SetSo(r, slots, ms[..i], h)
    {
      SetNext(r, slots, ms[..i], h, buf[i]);
      assert ms[..i + 1] == ms[..i] + [buf[i]];
      r := r[buf[i] := handler.value];
      if i + 1 == count { handler := None; }
      i := i + 1;
    }
    assert ms[..count] == ms;
    SetAll(r, slots, ms, h, methods);
  }

  lemma SetNone(slots: Slots, h: Handler)
    ensures SetSo(slots, slots, [], h)
  {
  }

  lemma Assoc<T>(a: seq<T>, b: seq<T>, c: seq<T>)
    ensures a + (b + c) == (a + b) + c
  {
  }

  lemma WithoutStep(regex: seq<RegexRoute>, i: nat, key: string)
    requires i < |regex|
    ensures WithoutKey(regex[i..], key)
              == (if regex[i].key == key then [] else [regex[i]]) + WithoutKey(regex[i + 1..], key)
  {
    assert regex[i..][1..] == regex[i + 1..];
  }

  lemma WithoutEnd(regex: seq<RegexRoute>, key: string)
    ensures WithoutKey(regex[|regex|..], key) == []
  {
  }

  lemma MergeStep(regex: seq<RegexRoute>, i: nat, methods: Mask, id: nat)
    requires i < |regex|
    ensures regex[..i] + MergeRegex(regex[i..], methods, id)
         == if regex[i].entry.handler == Lambda(id)
             then regex[i := regex[i].(entry := Merge(regex[i].entry, methods, id))]
            else regex[..i + 1] + MergeRegex(regex[i + 1..], methods, id)
  {
    assert regex[i..][1..] == regex[i + 1..];
    var rest := MergeRegex(regex[i + 1..], methods, id);
    Assoc(regex[..i], [regex[i]], rest);
    assert regex[..i] + [regex[i]] == regex[..i + 1];
  }

  lemma MergeEnd(regex: seq<RegexRoute>, methods: Mask, id: nat)
    ensures regex[..|regex|] + MergeRegex(regex[|regex|..], methods, id) == regex
  {
  }

  class RouteTable {
    const cfg: Config
    const re: Regexes
    const stray: char
    const cache: Lru<CacheKey, Hit>
    var exact: map<string, Entry>
    var trie: Node<Entry>
    var regex: seq<RegexRoute>
    var lambdas: seq<Slots>
    ghost var lost: iset<string>

    function State(): (t: Table)
      reads this
    {
      Table(exact, trie, regex, lambdas)
    }

    ghost predicate Valid()
      reads this, cache
    {
      cache.Valid() && Shaped(trie) && Coherent(cache.list, State(), re, lost)
    }

    constructor (cfg: Config, re: Regexes, stray: char)
      ensures Valid() && fresh(cache) && this.cfg == cfg && this.re == re && lost == iset{}
      ensures State() == Table(map[], SegmentTrie.Empty(), [], []) && cache.list == []
    {
      this.cfg, this.re, this.stray := cfg, re, stray;
      cache := new Lru(256);
      exact, trie, regex, lambdas, lost := map[], SegmentTrie.Empty(), [], [], iset{};
    }

    /** The regex tier, in order of registration: the first route whose pattern matches. */
    method ScanRegex(key: string) returns (r: Option<Hit>)
      ensures r.None? <==> forall i :: 0 <= i < |regex| ==> !re.matches(regex[i].pattern, key)
      ensures r.Some? ==> exists i: nat :: FirstToMatch(regex, key, re, i) && r.value == Hit(regex[i].entry, [])
      ensures r == FirstRegex(regex, key, re)
    {
      FirstRegexIs(regex, key, re);
      var i := 0;
      while i < |regex|
        invariant i <= |regex| && forall j :: 0 <= j < i ==> !re.matches(regex[j].pattern, key)
      {
        if re.matches(regex[i].pattern, key) {
          assert FirstToMatch(regex, key, re, i);
          return Some(Hit(regex[i].entry, []));
        }
        i := i + 1;
      }
      r := None;
    }

    /**
     lookup_v2. Unless the request was lost to a torn registration, the cache answers exactly what the tiers would.
     */
    method Lookup(verb: nat, path: string, lands: bool) returns (r: Option<Hit>)
      requires Valid()
      modifies cache
      ensures Valid() && (LookupKey(path) in lost || r == Answer(State(), path, re))
      ensures r == Seen(old(cache.list), State(), verb, path, lands, re)
      ensures LookupKey(path) !in exact && r.Some? ==>
                cache.list != [] && cache.list[0] == Item(CacheKey(verb, LookupKey(path)), r.value)
    {
      hide Search, RequestSegs, FirstRegex, LookupKey, Shaped;
      var key := LookupKey(path);
      if key in exact { return Some(Hit(exact[key], [])); }
      var k := CacheKey(verb, key);
      var list := cache.list;
      var cached := cache.Find(k, lands);
      if cached.Some? {
        OneItem(list, k, cached.value);
        TouchedFirst(list, cache.capacity, k, cached.value);
        CoherentTouched(list, State(), re, lost, cache.capacity, k, cached.value);
        return cached;
      }
      if lands { NotThere(list, k); }
      var m := SegmentTrie.Find(trie, key, re);
      if m.Some? {
        r := Some(Hit(m.value.entry, m.value.captures));
      } else {
        r := ScanRegex(key);
      }
      if r.Some? {
        TouchedFirst(list, cache.capacity, k, r.value);
        CoherentTouched(list, State(), re, lost, cache.capacity, k, r.value);
        cache.Insert(k, r.value);
      }
    }

    /** Losing a cached item, for whatever reason, changes no answer. */
    method Evict(i: nat)
      requires Valid() && i < |cache.list|
      modifies cache
      ensures Valid()
    {
      CutDistinct(Keys(cache.list), i);
      CutKeys(cache.list, i);
      cache.list := cache.list[..i] + cache.list[i + 1..];
    }

    method RegisterRoute(ep: Endpoint, res: Resource, family: bool) returns (accepted: bool)
      modifies this`exact, this`trie, this`regex
      ensures Outcome(State(), accepted) == Routes.Register(old(State()), ep, res, family, re)
    {
      hide Guarded, Inserted, InsertFails, PathTokens;
      if Guarded(State(), ep, family, re) { return false; }
      var entry := Entry(AllMethods(), res, family);
      if family || TierOf(ep, re).RadixTier? {
        accepted := !InsertFails(trie, PathTokens(ep.key), re);
        trie := Inserted(trie, PathTokens(ep.key), entry, family, re);
      } else {
        accepted := true;
        if TierOf(ep, re).RegexTier? {
          regex := regex + [RegexRoute(ep.key, ep.normalized, entry)];
        } else {
          exact := exact[ep.key := entry];
        }
      }
    }

    /** register_path and register_prefix. */
    method Register(path: string, res: Option<nat>, family: bool) returns (accepted: bool)
      requires Valid()
      modifies this, cache
      ensures Outcome(State(), accepted) == Perform(old(State()), RegisterCall(path, res, family), cfg, re)
      ensures Valid() && cache.list == if accepted then [] else old(cache.list)
      ensures lost == LostAfter(old(lost), old(State()), RegisterCall(path, res, family), cfg, re)
    {
      hide Coherent, EndpointOf, Tears, Routes.Register, Shaped, LostKeys;
      ghost var t, c, list := State(), RegisterCall(path, res, family), cache.list;
      StillCoherent(list, if Perform(t, c, cfg, re).accepted then [] else list, t, lost, c, cfg, re);
      PerformShaped(t, c, cfg, re);
      lost := LostAfter(lost, t, c, cfg, re);
      if !RegisterInputsOk(cfg, path, res, family) { return false; }
      var ep := MakeEndpoint(path, cfg.regexChecking, re, stray);
      if ep.Rejected? { return false; }
      accepted := RegisterRoute(ep.value, ClassResource(res.value), family);
      if accepted { cache.Clear(); }
    }

    method SweepRegex(key: string)
      modifies this`regex
      ensures regex == WithoutKey(old(regex), key)
    {
      hide WithoutKey;
      var kept: seq<RegexRoute>, i := [], 0;
      assert regex[0..] == regex;
      while i < |regex|
        invariant i <= |regex| && regex == old(regex)
        invariant WithoutKey(regex, key) == kept + WithoutKey(regex[i..], key)
      {
        WithoutStep(regex, i, key);
        ghost var rest := WithoutKey(regex[i + 1..], key);
        if regex[i].key != key {
          Assoc(kept, [regex[i]], rest);
          kept := kept + [regex[i]];
        }
        i := i + 1;
      }
      WithoutEnd(regex, key);
      regex := kept;
    }

    /** unregister_path and unregister_prefix. */
    method Unregister(path: string, family: bool) returns (accepted: bool)
      requires Valid()
      modifies this, cache
      ensures Outcome(State(), accepted) == Perform(old(State()), UnregisterCall(path, family), cfg, re)
      ensures Valid() && cache.list == if accepted then [] else old(cache.list)
      ensures lost == LostAfter(old(lost), old(State()), UnregisterCall(path, family), cfg, re)
    {
      hide EndpointOf, Removed, PathTokens, WithoutKey, Shaped, LostKeys;
      PerformShaped(State(), UnregisterCall(path, family), cfg, re);
      lost := LostAfter(lost, State(), UnregisterCall(path, family), cfg, re);
      var ep := MakeEndpoint(path, cfg.regexChecking, re, stray);
      if ep.Rejected? { return false; }
      var key := ep.value.key;
      if family {
        trie := Removed(trie, PathTokens(key), true);
      } else if ep.value.params != [] {
        trie := Removed(trie, PathTokens(key), false);
      } else {
        exact := exact - {key};
        SweepRegex(key);
      }
      cache.Clear();
      accepted := true;
    }

    method UnregisterResource(path: string) returns (accepted: bool)
      requires Valid()
      modifies this, cache
      ensures Outcome(State(), accepted) == Perform(old(State()), UnregisterAllCall(path), cfg, re)
      ensures Valid() && cache.list == if accepted then [] else old(cache.list)
      ensures lost == LostAfter(old(lost), old(State()), UnregisterAllCall(path), cfg, re)
    {
      hide EndpointOf, Removed, PathTokens, WithoutKey, Shaped, LostKeys;
      PerformShaped(State(), UnregisterAllCall(path), cfg, re);
      lost := LostAfter(lost, State(), UnregisterAllCall(path), cfg, re);
      var ep := MakeEndpoint(path, cfg.regexChecking, re, stray);
      if ep.Rejected? { return false; }
      var key := ep.value.key;
      exact := exact - {key};
      SweepRegex(key);
      trie := Removed(trie, PathTokens(key), false);
      trie := Removed(trie, PathTokens(key), true);
      cache.Clear();
      accepted := true;
    }

    method WriteSlots(id: nat, methods: Mask, h: Handler)
      modifies this`lambdas
      ensures lambdas == Commit(old(State()), id, methods, h).lambdas
    {
      if id < |lambdas| {
        var slots := CommitHandlers(lambdas[id], methods, h);
        lambdas := lambdas[id := slots];
      } else {
        var slots := CommitHandlers(map[], methods, h);
        lambdas := lambdas + [slots];
      }
    }

    method UpdateRegex(methods: Mask, id: nat)
      modifies this`regex
      ensures regex == MergeRegex(old(regex), methods, id)
    {
      hide MergeRegex, Merge;
      var i := 0;
      assert regex[0..] == regex;
      while i < |regex|
        invariant i <= |regex| && regex == old(regex)
        invariant MergeRegex(regex, methods, id) == regex[..i] + MergeRegex(regex[i..], methods, id)
      {
        MergeStep(regex, i, methods, id);
        if regex[i].entry.handler == Lambda(id) {
          regex := regex[i := regex[i].(entry := Merge(regex[i].entry, methods, id))];
          return;
        }
        i := i + 1;
      }
      MergeEnd(regex, methods, id);
    }

    /** insert_fresh_v2_entry. */
    method InsertFreshRoute(ep: Endpoint, methods: Mask, id: nat) returns (accepted: bool)
      modifies this`exact, this`regex
      ensures Outcome(State(), accepted) == InsertFresh(old(State()), ep, methods, id, re)
    {
      hide TierOf, Collides;
      var entry := Entry(methods, Lambda(id), false);
      if TierOf(ep, re).RegexTier? {
        regex := regex + [RegexRoute(ep.key, ep.normalized, entry)];
        return true;
      }
      if Collides(State(), ep.key, false) { return false; }
      exact := exact[ep.key := entry];
      accepted := true;
    }

    /** The slots are written first; an entry that exists is then updated, a new one inserted, which may throw. */
    method OnPlainRoute(ep: Endpoint, methods: Mask, h: Handler) returns (accepted: bool)
      modifies this`exact, this`regex, this`lambdas
      ensures Outcome(State(), accepted) == OnPlain(old(State()), ep, methods, h, re)
    {
      hide Refuses, Probe, Filled, MergeRegex, TierOf, Collides;
      var existing, known := Probe(State(), ep, re), |lambdas|;
      if Refuses(State(), existing, methods) { return false; }
      var id := ShimOf(State(), existing);
      WriteSlots(id, methods, h);
      if existing.Some? {
        if ep.key in exact {
          exact := exact[ep.key := Merge(exact[ep.key], methods, id)];
        } else {
          UpdateRegex(methods, id);
        }
        return true;
      }
      accepted := InsertFreshRoute(ep, methods, id);
      if !accepted && known <= |lambdas| { lambdas := lambdas[..known]; }
    }

    method OnPatternRoute(ep: Endpoint, methods: Mask, h: Handler) returns (accepted: bool)
      requires ep.params != []
      modifies this`trie, this`lambdas
      ensures Outcome(State(), accepted) == OnPattern(old(State()), ep, methods, h, re)
    {
      hide Refuses, Probe, Filled, Collides, Inserted, InsertFails, PathTokens;
      var existing, known := Probe(State(), ep, re), |lambdas|;
      if Refuses(State(), existing, methods) { return false; }
      var id := ShimOf(State(), existing);
      WriteSlots(id, methods, h);
      accepted := !Collides(State(), ep.key, false);
      if accepted {
        var entry := Merge(if existing.Some? then existing.value else Entry({}, Lambda(id), false), methods, id);
        accepted := !InsertFails(trie, PathTokens(ep.key), re);
        trie := Inserted(trie, PathTokens(ep.key), entry, false, re);
      }
      if !accepted && known <= |lambdas| { lambdas := lambdas[..known]; }
    }

    /** on_get, on_post, … and route. */
    method OnMethods(methods: Mask, path: string, h: Option<Handler>) returns (accepted: bool)
      requires Valid()
      modifies this, cache
      ensures Outcome(State(), accepted) == Perform(old(State()), OnCall(methods, path, h), cfg, re)
      ensures Valid() && cache.list == if accepted then [] else old(cache.list)
      ensures lost == LostAfter(old(lost), old(State()), OnCall(methods, path, h), cfg, re)
    {
      hide Coherent, EndpointOf, Tears, OnPlain, OnPattern, Shaped, LostKeys;
      ghost var t, c, list := State(), OnCall(methods, path, h), cache.list;
      StillCoherent(list, if Perform(t, c, cfg, re).accepted then [] else list, t, lost, c, cfg, re);
      PerformShaped(t, c, cfg, re);
      lost := LostAfter(lost, t, c, cfg, re);
      if !OnInputsOk(cfg, path, methods, h) { return false; }
      var ep := MakeEndpoint(path, cfg.regexChecking, re, stray);
      if ep.Rejected? { return false; }
      if ep.value.params != [] {
        accepted := OnPatternRoute(ep.value, methods, h.value);
      } else {
        accepted := OnPlainRoute(ep.value, methods, h.value);
      }
      if accepted { cache.Clear(); }
    }

    /** One operation of a run. */
    method Apply(op: Op) returns (answer: seq<Option<Hit>>)
      requires Valid()
      modifies this, cache
      ensures Valid() && State() == NextTable(old(State()), op, cfg, re)
                && lost == NextLost(old(lost), old(State()), op, cfg, re)
      ensures AnswersOne(old(State()), old(lost), op, answer, re)
    {
      hide Coherent, Perform, Tears, Answer, Shaped, LostKeys;
      answer := [];
      match op
      case Look(verb, path, lands) =>
        var r := Lookup(verb, path, lands);
        answer := [r];
      case Drop(i) => if i < |cache.list| { Evict(i); }
      case Do(RegisterCall(path, res, family)) => var _ := Register(path, res, family);
      case Do(UnregisterCall(path, family)) => var _ := Unregister(path, family);
      case Do(UnregisterAllCall(path)) => var _ := UnregisterResource(path);
      case Do(OnCall(methods, path, h)) => var _ := OnMethods(methods, path, h);
    }

    /**
     In every run, with the cache losing anything at any time, every lookup answers as without a cache,
     unless its request was lost to a torn registration since the cache was last cleared.
     */
    method Run(ops: seq<Op>) returns (answers: seq<Option<Hit>>)
      requires Valid()
      modifies this, cache
      ensures Valid() && AnswersWell(old(State()), old(lost), ops, answers, cfg, re)
    {
      hide Coherent, Valid, NextTable, NextLost, AnswersOne;
      answers := [];
      TellNone(State(), lost, ops, cfg, re);
      for i := 0 to |ops|
        invariant Valid() && Told(old(State()), old(lost), ops, i, answers, State(), lost, cfg, re)
      {
        ghost var t, l := State(), lost;
        var answer := Apply(ops[i]);
        TellMore(old(State()), old(lost), ops, i, answers, t, l, answer, cfg, re);
        answers := answers + answer;
      }
      assert ops[..|ops|] == ops;
      TellAll(old(State()), old(lost), ops, answers, State(), lost, cfg, re);
    }
  }

  lemma OneItem(list: seq<CacheItem>, k: CacheKey, v: Hit)
    requires Distinct(Keys(list)) && Item(k, v) in list
    ensures var i := Position(list, k); i < |list| && list[i] == Item(k, v)
  {
    var j :| 0 <= j < |list| && list[j] == Item(k, v);
    var i := Position(list, k);
    assert Keys(list)[i] == k && Keys(list)[j] == k;
  }

  lemma TouchedFirst(list: seq<CacheItem>, capacity: nat, k: CacheKey, v: Hit)
    requires capacity > 0
    ensures var r := Touched(list, capacity, k, v); r != [] && r[0] == Item(k, v)
  {
    hide Position, Cut;
  }

  lemma NotThere(list: seq<CacheItem>, k: CacheKey)
    requires k !in Keys(list)
    ensures Position(list, k) == |list|
  {
    assert forall j :: 0 <= j < |list| ==> Keys(list)[j] in Keys(list);
  }

  // ---- runs ------------------------------------------------------------------------------

  datatype Op = Look(verb: nat, path: string, lands: bool) | Drop(i: nat) | Do(call: Call)

  function NextTable(t: Table, op: Op, cfg: Config, re: Regexes): (r: Table)
  {
    if op.Do? then Perform(t, op.call, cfg, re).table else t
  }

  ghost function NextLost(lost: iset<string>, t: Table, op: Op, cfg: Config, re: Regexes): (r: iset<string>)
  {
    if op.Do? then LostAfter(lost, t, op.call, cfg, re) else lost
  }

  /** The answer to one operation: none, or that of the table without a cache unless the request is lost. */
  ghost predicate AnswersOne(t: Table, lost: iset<string>, op: Op, answer: seq<Option<Hit>>, re: Regexes)
  {
    if op.Look? then |answer| == 1 && (LookupKey(op.path) in lost || answer[0] == Answer(t, op.path, re))
    else answer == []
  }

  /** The answers to a run of operations. */
  ghost predicate AnswersWell(t: Table, lost: iset<string>, ops: seq<Op>, answers: seq<Option<Hit>>, cfg: Config,
                              re: Regexes)
    decreases |ops|
  {
    if ops == [] then answers == []
    else
      exists k: nat :: k <= |answers| && AnswersOne(t, lost, ops[0], answers[..k], re)
        && AnswersWell(NextTable(t, ops[0], cfg, re), NextLost(lost, t, ops[0], cfg, re), ops[1..], answers[k..],
                       cfg, re)
  }

  /** The first `i` operations have been answered so, and led to `t'` and `lost'`. */
  ghost predicate Told(t: Table, lost: iset<string>, ops: seq<Op>, i: nat, answers: seq<Option<Hit>>,
                       t': Table, lost': iset<string>, cfg: Config, re: Regexes)
    requires i <= |ops|
  {
    forall more: seq<Option<Hit>> ::
      AnswersWell(t', lost', ops[i..], more, cfg, re) ==> AnswersWell(t, lost, ops, answers + more, cfg, re)
  }

  lemma TellNone(t: Table, lost: iset<string>, ops: seq<Op>, cfg: Config, re: Regexes)
    ensures Told(t, lost, ops, 0, [], t, lost, cfg, re)
  {
    assert ops[0..] == ops;
    forall more: seq<Option<Hit>> ensures [] + more == more {
    }
  }

  lemma TellMore(t: Table, lost: iset<string>, ops: seq<Op>, i: nat, answers: seq<Option<Hit>>,
                 t': Table, lost': iset<string>, answer: seq<Option<Hit>>, cfg: Config, re: Regexes)
    requires i < |ops| && Told(t, lost, ops, i, answers, t', lost', cfg, re)
               && AnswersOne(t', lost', ops[i], answer, re)
    ensures Told(t, lost, ops, i + 1, answers + answer, NextTable(t', ops[i], cfg, re),
              NextLost(lost', t', ops[i], cfg, re), cfg, re)
  {
    hide AnswersOne, NextTable, NextLost;
    var t2, lost2 := NextTable(t', ops[i], cfg, re), NextLost(lost', t', ops[i], cfg, re);
    forall more: seq<Option<Hit>> | AnswersWell(t2, lost2, ops[i + 1..], more, cfg, re)
      ensures AnswersWell(t, lost, ops, (answers + answer) + more, cfg, re)
    {
      assert ops[i..][1..] == ops[i + 1..] && ops[i..][0] == ops[i];
      var all := answer + more;
      assert all[..|answer|] == answer && all[|answer|..] == more;
      assert AnswersWell(t', lost', ops[i..], all, cfg, re);
      Assoc(answers, answer, more);
    }
  }

  lemma TellAll(t: Table, lost: iset<string>, ops: seq<Op>, answers: seq<Option<Hit>>,
                t': Table, lost': iset<string>, cfg: Config, re: Regexes)
    requires Told(t, lost, ops, |ops|, answers, t', lost', cfg, re)
    ensures AnswersWell(t, lost, ops, answers, cfg, re)
  {
    assert ops[|ops|..] == [];
    assert AnswersWell(t', lost', [], [], cfg, re);
    assert answers + [] == answers;
  }

  /** The answers of a table without a cache to the lookups of a run. */
  function Answers(t: Table, ops: seq<Op>, cfg: Config, re: Regexes): (r: seq<Option<Hit>>)
    decreases |ops|
  {
    if ops == [] then []
    else
      (if ops[0].Look? then [Answer(t, ops[0].path, re)] else [])
      + Answers(NextTable(t, ops[0], cfg, re), ops[1..], cfg, re)
  }

  /** No registration of the run tears. */
  predicate Whole(t: Table, ops: seq<Op>, cfg: Config, re: Regexes)
    decreases |ops|
  {
    ops == [] || (!(ops[0].Do? && Tears(t, ops[0].call, cfg, re))
        && Whole(NextTable(t, ops[0], cfg, re), ops[1..], cfg, re))
  }

  lemma WholeStep(t: Table, op: Op, answer: seq<Option<Hit>>, cfg: Config, re: Regexes)
    requires !(op.Do? && Tears(t, op.call, cfg, re)) && AnswersOne(t, iset{}, op, answer, re)
    ensures NextLost(iset{}, t, op, cfg, re) == iset{}
    ensures answer == if op.Look? then [Answer(t, op.path, re)] else []
  {
    hide Tears, Answer, Perform;
  }

  /** Then nothing is lost, and the answers are those of the table without a cache. */
  lemma {:induction false} WholeRuns(t: Table, ops: seq<Op>, answers: seq<Option<Hit>>, cfg: Config, re: Regexes)
    requires Whole(t, ops, cfg, re) && AnswersWell(t, iset{}, ops, answers, cfg, re)
    ensures answers == Answers(t, ops, cfg, re)
    decreases |ops|
  {
    hide Tears, Answer, NextTable, NextLost, AnswersOne;
    if ops != [] {
      var t2, lost2 := NextTable(t, ops[0], cfg, re), NextLost(iset{}, t, ops[0], cfg, re);
      var k: nat :| k <= |answers| && AnswersOne(t, iset{}, ops[0], answers[..k], re)
        && AnswersWell(t2, lost2, ops[1..], answers[k..], cfg, re);
      WholeStep(t, ops[0], answers[..k], cfg, re);
      WholeRuns(t2, ops[1..], answers[k..], cfg, re);
      assert answers == answers[..k] + answers[k..];
    }
  }
}
