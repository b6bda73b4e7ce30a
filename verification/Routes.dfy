/**
 The three-tier route table as a value: what a lookup answers without a cache, and what each
 registration call does to the tiers and to the handler slots behind lambda routes.
 */
module Routes {
  import opened Wrappers
  import opened Paths
  import opened SegmentTrie
  import opened Endpoint

  /** Method sets are bit masks; a mask is the set of its bit positions. */
  type Mask = set<nat>

  const METHOD_COUNT: nat := 9

  function AllMethods(): (m: Mask)
    ensures forall i: nat :: i in m <==> i < METHOD_COUNT
  {
    {0, 1, 2, 3, 4, 5, 6, 7, 8}
  }

  /** The methods `for_each_requested_method` visits. */
  function Requested(methods: Mask): (m: Mask) { set i | i in methods && i < METHOD_COUNT }

  type Handler = nat

  /** What an entry dispatches to: a user's resource, or the library's lambda resource. */
  datatype Resource = ClassResource(id: nat) | Lambda(id: nat)

  datatype Entry = Entry(methods: Mask, handler: Resource, isPrefix: bool)

  datatype RegexRoute = RegexRoute(key: string, pattern: string, entry: Entry)

  type Slots = map<nat, Handler>

  datatype Table = Table(exact: map<string, Entry>, trie: Node<Entry>, regex: seq<RegexRoute>, lambdas: seq<Slots>)

  datatype Config = Config(regexChecking: bool, singleResource: bool)

  datatype Hit = Hit(entry: Entry, captures: Captures)

  datatype Outcome = Outcome(table: Table, accepted: bool)

  // ---- lookup without a cache ------------------------------------------------------------

  function FirstRegex(regex: seq<RegexRoute>, key: string, re: Regexes): (r: Option<Hit>)
  {
    if regex == [] then None
    else if re.matches(regex[0].pattern, key) then Some(Hit(regex[0].entry, []))
    else FirstRegex(regex[1..], key, re)
  }

  /** Route `i` matches and none before it does. */
  predicate FirstToMatch(regex: seq<RegexRoute>, key: string, re: Regexes, i: nat)
  {
    && i < |regex| && re.matches(regex[i].pattern, key)
    && forall j :: 0 <= j < i ==> !re.matches(regex[j].pattern, key)
  }

  lemma {:induction false} FirstRegexIs(regex: seq<RegexRoute>, key: string, re: Regexes)
    ensures FirstRegex(regex, key, re).None? <==> forall i :: 0 <= i < |regex| ==> !re.matches(regex[i].pattern, key)
    ensures forall i: nat :: FirstToMatch(regex, key, re, i)
              ==> FirstRegex(regex, key, re) == Some(Hit(regex[i].entry, []))
    ensures FirstRegex(regex, key, re).Some? ==> exists i: nat :: FirstToMatch(regex, key, re, i)
  {
    if regex != [] && !re.matches(regex[0].pattern, key) {
      var rest := regex[1..];
      FirstRegexIs(rest, key, re);
      assert forall i :: 0 <= i < |rest| ==> regex[i + 1] == rest[i];
      forall i: nat | FirstToMatch(regex, key, re, i)
        ensures FirstRegex(regex, key, re) == Some(Hit(regex[i].entry, []))
      {
        assert i > 0 && FirstToMatch(rest, key, re, i - 1);
      }
      if FirstRegex(rest, key, re).Some? {
        var i: nat :| FirstToMatch(rest, key, re, i);
        assert FirstToMatch(regex, key, re, i + 1);
      }
    } else if regex != [] {
      assert FirstToMatch(regex, key, re, 0);
    }
  }

  /** The radix tier, then the regex tier. */
  function Tail(t: Table, key: string, re: Regexes): (r: Option<Hit>)
  {
    var m := Search(t.trie, RequestSegs(key), re);
    if m.Some? then Some(Hit(m.value.entry, m.value.captures)) else FirstRegex(t.regex, key, re)
  }

  function Answer(t: Table, path: string, re: Regexes): (r: Option<Hit>)
  {
    var key := LookupKey(path);
    if key in t.exact then Some(Hit(t.exact[key], [])) else Tail(t, key, re)
  }

  /** The tiers in order: an exact key, then the trie, then the first regex route that matches. */
  lemma AnswerByTier(t: Table, path: string, re: Regexes)
    ensures var key, a := LookupKey(path), Answer(t, path, re);
            var m := Search(t.trie, RequestSegs(key), re);
            && (key in t.exact ==> a == Some(Hit(t.exact[key], [])))
            && (key !in t.exact && m.Some? ==> a == Some(Hit(m.value.entry, m.value.captures)))
            && (key !in t.exact && m.None? ==>
                  && (forall i: nat :: FirstToMatch(t.regex, key, re, i) ==> a == Some(Hit(t.regex[i].entry, [])))
                  && (a.None? <==> forall i :: 0 <= i < |t.regex| ==> !re.matches(t.regex[i].pattern, key)))
  {
    hide Search, RequestSegs, LookupKey, FirstRegex;
    FirstRegexIs(t.regex, LookupKey(path), re);
  }

  /** A regex route that comes later never answers a request that already had an answer. */
  lemma LaterRegexRoute(t: Table, route: RegexRoute, path: string, re: Regexes)
    ensures var now := Answer(t.(regex := t.regex + [route]), path, re);
            var matches := re.matches(route.pattern, LookupKey(path));
            now == if Answer(t, path, re).Some? then Answer(t, path, re)
                   else if matches then Some(Hit(route.entry, []))
                   else None
  {
    hide Search, RequestSegs, LookupKey, FirstRegex, FirstToMatch;
    FirstOfMore(t.regex, route, LookupKey(path), re);
  }

  lemma FirstOfMore(regex: seq<RegexRoute>, route: RegexRoute, key: string, re: Regexes)
    ensures FirstRegex(regex + [route], key, re)
         == if FirstRegex(regex, key, re).Some? then FirstRegex(regex, key, re)
            else if re.matches(route.pattern, key) then Some(Hit(route.entry, []))
            else None
  {
    hide FirstRegex;
    var more := regex + [route];
    FirstRegexIs(regex, key, re);
    FirstRegexIs(more, key, re);
    assert forall i :: 0 <= i < |regex| ==> more[i] == regex[i];
    assert more[|regex|] == route;
    if FirstRegex(regex, key, re).Some? {
      var i: nat :| FirstToMatch(regex, key, re, i);
      assert FirstToMatch(more, key, re, i);
    } else if re.matches(route.pattern, key) {
      assert FirstToMatch(more, key, re, |regex|);
    }
  }

  // ---- registration ----------------------------------------------------------------------

  datatype Tier = ExactTier | RadixTier | RegexTier

  /** classify_route_tier. */
  function TierOf(ep: Endpoint, re: Regexes): (tier: Tier)
  {
    if ep.params != [] then RadixTier
    else if ep.compiled && !re.matches(ep.normalized, ep.key) then RegexTier
    else ExactTier
  }

  /** reject_terminus_collision. */
  predicate Collides(t: Table, key: string, wantPrefix: bool)
  {
    if wantPrefix then key in t.exact || HasTerminusAt(t.trie, PathTokens(key), false)
    else HasTerminusAt(t.trie, PathTokens(key), true)
  }

  predicate InRegex(regex: seq<RegexRoute>, key: string) { exists i :: 0 <= i < |regex| && regex[i].key == key }

  /** reject_duplicate_v2_entry_. */
  predicate Duplicates(t: Table, ep: Endpoint, family: bool, re: Regexes)
  {
    if family then HasTerminusAt(t.trie, PathTokens(ep.key), true)
    else
      match TierOf(ep, re)
      case ExactTier => ep.key in t.exact
      case RadixTier => HasTerminusAt(t.trie, PathTokens(ep.key), false)
      case RegexTier => InRegex(t.regex, ep.key)
  }

  predicate Guarded(t: Table, ep: Endpoint, family: bool, re: Regexes)
  {
    Collides(t, ep.key, family) || Duplicates(t, ep, family, re)
  }

  /** Placing an entry in the radix tier can throw after it has changed the trie. */
  function PlaceRadix(t: Table, key: string, entry: Entry, isPrefix: bool, re: Regexes): (r: Outcome)
  {
    Outcome(t.(trie := Inserted(t.trie, PathTokens(key), entry, isPrefix, re)),
        !InsertFails(t.trie, PathTokens(key), re))
  }

  /** register_v2_route. */
  function Register(t: Table, ep: Endpoint, res: Resource, family: bool, re: Regexes): (r: Outcome)
  {
    var entry := Entry(AllMethods(), res, family);
    if Guarded(t, ep, family, re) then Outcome(t, false)
    else if family then PlaceRadix(t, ep.key, entry, true, re)
    else
      match TierOf(ep, re)
      case RadixTier => PlaceRadix(t, ep.key, entry, false, re)
      case RegexTier => Outcome(t.(regex := t.regex + [RegexRoute(ep.key, ep.normalized, entry)]), true)
      case ExactTier => Outcome(t.(exact := t.exact[ep.key := entry]), true)
  }

  function WithoutKey(regex: seq<RegexRoute>, key: string): (r: seq<RegexRoute>)
  {
    if regex == [] then []
    else (if regex[0].key == key then [] else [regex[0]]) + WithoutKey(regex[1..], key)
  }

  function EraseExactAndRegex(t: Table, key: string): (r: Table)
  {
    t.(exact := t.exact - {key}, regex := WithoutKey(t.regex, key))
  }

  function RemovePattern(t: Table, key: string, isPrefix: bool): (r: Table)
  {
    t.(trie := Removed(t.trie, PathTokens(key), isPrefix))
  }

  /** unregister_path and unregister_prefix. */
  function Unregister(t: Table, ep: Endpoint, family: bool): (r: Table)
  {
    if family then RemovePattern(t, ep.key, true)
    else if ep.params != [] then RemovePattern(t, ep.key, false)
    else EraseExactAndRegex(t, ep.key)
  }

  /** unregister_resource sweeps every place the key could be in. */
  function UnregisterAll(t: Table, key: string): (r: Table)
  {
    RemovePattern(RemovePattern(EraseExactAndRegex(t, key), key, false), key, true)
  }

  // ---- lambda routes ---------------------------------------------------------------------

  function SlotsOf(t: Table, id: nat): (s: Slots) { if id < |t.lambdas| then t.lambdas[id] else map[] }

  function Filled(slots: Slots, methods: Mask, h: Handler): (s: Slots)
  {
    map m | m in slots.Keys + Requested(methods) :: if m in Requested(methods) then h else slots[m]
  }

  function RegexAt(regex: seq<RegexRoute>, key: string): (r: Option<Entry>)
  {
    if regex == [] then None else if regex[0].key == key then Some(regex[0].entry) else RegexAt(regex[1..], key)
  }

  /** find_v2_entry_by_path_: a parameterised path probes the radix tier with its own pattern text. */
  function Probe(t: Table, ep: Endpoint, re: Regexes): (r: Option<Entry>)
  {
    if ep.params != [] then
      var m := Search(t.trie, RequestSegs(ep.key), re);
      if m.Some? && !m.value.isPrefix then Some(m.value.entry) else None
    else if ep.key in t.exact then Some(t.exact[ep.key])
    else if ep.compiled then RegexAt(t.regex, ep.key)
    else None
  }

  /** prepare_or_create_lambda_shim refuses a user's resource and an occupied slot. */
  predicate Refuses(t: Table, existing: Option<Entry>, methods: Mask)
  {
    existing.Some? && (!existing.value.handler.Lambda?
                       || exists m :: m in Requested(methods) && m in SlotsOf(t, existing.value.handler.id))
  }

  /** The lambda resource a call writes to: the one behind the probed entry, or a new one. */
  function ShimOf(t: Table, existing: Option<Entry>): (id: nat)
  {
    if existing.Some? && existing.value.handler.Lambda? then existing.value.handler.id else |t.lambdas|
  }

  function Commit(t: Table, id: nat, methods: Mask, h: Handler): (r: Table)
  {
    if id < |t.lambdas| then t.(lambdas := t.lambdas[id := Filled(t.lambdas[id], methods, h)])
    else t.(lambdas := t.lambdas + [Filled(map[], methods, h)])
  }

  function Merge(e: Entry, methods: Mask, id: nat): (r: Entry) { Entry(e.methods + methods, Lambda(id), false) }

  /** update_existing_v2_entry on the regex tier goes by the identity of the lambda resource. */
  function MergeRegex(regex: seq<RegexRoute>, methods: Mask, id: nat): (r: seq<RegexRoute>)
  {
    if regex == [] then []
    else if regex[0].entry.handler == Lambda(id) then
      [regex[0].(entry := Merge(regex[0].entry, methods, id))] + regex[1..]
    else [regex[0]] + MergeRegex(regex[1..], methods, id)
  }

  /** A call that throws leaves its slot writes, except to a lambda resource it made itself, which goes away. */
  function Unwound(t: Table, known: nat): (r: Table)
  {
    if known <= |t.lambdas| then t.(lambdas := t.lambdas[..known]) else t
  }

  /** update_existing_v2_entry cannot throw. */
  function UpdateExisting(t: Table, key: string, methods: Mask, id: nat): (r: Table)
  {
    if key in t.exact then t.(exact := t.exact[key := Merge(t.exact[key], methods, id)])
    else t.(regex := MergeRegex(t.regex, methods, id))
  }

  /** insert_fresh_v2_entry throws when a prefix is registered at the key of an exact-tier route. */
  function InsertFresh(t: Table, ep: Endpoint, methods: Mask, id: nat, re: Regexes): (r: Outcome)
  {
    var entry := Entry(methods, Lambda(id), false);
    if TierOf(ep, re).RegexTier? then Outcome(t.(regex := t.regex + [RegexRoute(ep.key, ep.normalized, entry)]), true)
    else if Collides(t, ep.key, false) then Outcome(t, false)
    else Outcome(t.(exact := t.exact[ep.key := entry]), true)
  }

  /** on_methods_ on a path without parameters: the slots are written first, then the table. */
  function OnPlain(t: Table, ep: Endpoint, methods: Mask, h: Handler, re: Regexes): (r: Outcome)
  {
    var existing := Probe(t, ep, re);
    var id := ShimOf(t, existing);
    if Refuses(t, existing, methods) then Outcome(t, false)
    else
      var written := Commit(t, id, methods, h);
      var r := if existing.Some? then Outcome(UpdateExisting(written, ep.key, methods, id), true)
               else InsertFresh(written, ep, methods, id, re);
      if r.accepted then r else Outcome(Unwound(r.table, |t.lambdas|), false)
  }

  /** on_methods_ on a path with parameters: the slots are written before the guard and the insertion can throw. */
  function OnPattern(t: Table, ep: Endpoint, methods: Mask, h: Handler, re: Regexes): (r: Outcome)
  {
    var existing := Probe(t, ep, re);
    var id := ShimOf(t, existing);
    if Refuses(t, existing, methods) then Outcome(t, false)
    else
      var written := Commit(t, id, methods, h);
      var entry := Merge(if existing.Some? then existing.value else Entry({}, Lambda(id), false), methods, id);
      var r := if Collides(written, ep.key, false) then Outcome(written, false)
               else PlaceRadix(written, ep.key, entry, false, re);
      if r.accepted then r else Outcome(Unwound(r.table, |t.lambdas|), false)
  }

  // ---- the public calls ------------------------------------------------------------------

  predicate RootPath(path: string) { path == "" || path == "/" }

  /** validate_register_inputs_. */
  predicate RegisterInputsOk(cfg: Config, path: string, res: Option<nat>, family: bool)
  {
    res.Some? && !(cfg.singleResource && (!RootPath(path) || !family)) && '\0' !in path
  }

  /** validate_on_methods_inputs_. */
  predicate OnInputsOk(cfg: Config, path: string, methods: Mask, h: Option<Handler>)
  {
    Requested(methods) != {} && h.Some? && !(cfg.singleResource && !RootPath(path)) && '\0' !in path && |path| <= 8192
  }

  datatype Call =
    | RegisterCall(path: string, res: Option<nat>, family: bool)
    | UnregisterCall(path: string, family: bool)
    | UnregisterAllCall(path: string)
    | OnCall(methods: Mask, path: string, h: Option<Handler>)

  predicate InputsOk(cfg: Config, c: Call)
  {
    match c
    case RegisterCall(path, res, family) => RegisterInputsOk(cfg, path, res, family)
    case OnCall(methods, path, h) => OnInputsOk(cfg, path, methods, h)
    case _ => true
  }

  /** What a call does once its endpoint is built. */
  function Effect(t: Table, c: Call, ep: Endpoint, re: Regexes): (r: Outcome)
  {
    match c
    case RegisterCall(_, res, family) =>
      if res.None? then Outcome(t, false) else Register(t, ep, ClassResource(res.value), family, re)
    case UnregisterCall(_, family) => Outcome(Unregister(t, ep, family), true)
    case UnregisterAllCall(_) => Outcome(UnregisterAll(t, ep.key), true)
    case OnCall(methods, _, h) =>
      if h.None? then Outcome(t, false)
      else if ep.params != [] then OnPattern(t, ep, methods, h.value, re)
      else OnPlain(t, ep, methods, h.value, re)
  }

  function Perform(t: Table, c: Call, cfg: Config, re: Regexes): (r: Outcome)
  {
    var ep := EndpointOf(c.path, cfg.regexChecking, re);
    if !InputsOk(cfg, c) || ep.Rejected? then Outcome(t, false) else Effect(t, c, ep.value, re)
  }

  /** The call gets as far as inserting into the trie. */
  predicate Inserts(t: Table, c: Call, ep: Endpoint, re: Regexes)
  {
    match c
    case RegisterCall(_, _, family) => (family || TierOf(ep, re).RadixTier?) && !Guarded(t, ep, family, re)
    case OnCall(methods, _, _) =>
      ep.params != [] && !Refuses(t, Probe(t, ep, re), methods) && !Collides(t, ep.key, false)
    case _ => false
  }

  /** The call is refused half-way: the trie meets a constraint that does not compile. */
  predicate Tears(t: Table, c: Call, cfg: Config, re: Regexes)
  {
    var ep := EndpointOf(c.path, cfg.regexChecking, re);
    InputsOk(cfg, c) && ep.Ok? && Inserts(t, c, ep.value, re) && InsertFails(t.trie, PathTokens(ep.value.key), re)
  }

  /** Writing slots changes no tier and no guard. */
  lemma SlotsAreApart(t: Table, id: nat, methods: Mask, h: Handler, key: string, wantPrefix: bool)
    ensures Commit(t, id, methods, h).(lambdas := t.lambdas) == t
    ensures Collides(Commit(t, id, methods, h), key, wantPrefix) == Collides(t, key, wantPrefix)
  {
  }

  /** A refused call that does not tear leaves every tier as it was. */
  lemma RefusedKeepsTiers(t: Table, c: Call, cfg: Config, re: Regexes)
    requires !Perform(t, c, cfg, re).accepted && !Tears(t, c, cfg, re)
    ensures Perform(t, c, cfg, re).table.(lambdas := t.lambdas) == t
  {
    hide EndpointOf, InsertFails, Inserted, Guarded, Collides, Refuses, Probe, TierOf, PathTokens, Merge, MergeRegex,
        Commit;
    var ep := EndpointOf(c.path, cfg.regexChecking, re);
    if c.OnCall? && c.h.Some? && ep.Ok? {
      SlotsAreApart(t, ShimOf(t, Probe(t, ep.value, re)), c.methods, c.h.value, ep.value.key, false);
    }
  }

  // ---- a call that tears -----------------------------------------------------------------

  /** What a call that tears leaves behind: a half-made pattern in the trie, and the other tiers as they were. */
  lemma TornPerform(t: Table, c: Call, cfg: Config, re: Regexes) returns (entry: Entry, isPrefix: bool)
    requires Tears(t, c, cfg, re)
    ensures var r := Perform(t, c, cfg, re);
            var segs := PathTokens(LookupKey(c.path));
            && !r.accepted && InsertFails(t.trie, segs, re)
            && r.table.(trie := t.trie, lambdas := t.lambdas) == t
            && r.table.trie == Inserted(t.trie, segs, entry, isPrefix, re)
  {
    hide EndpointOf, InsertFails, Inserted, Guarded, TierOf, PathTokens, AllMethods, Probe, Refuses, Collides, Commit,
        Merge;
    var ep := EndpointOf(c.path, cfg.regexChecking, re).value;
    EndpointKeyIs(c.path, cfg.regexChecking, re);
    match c
    case RegisterCall(_, res, family) =>
      entry, isPrefix := Entry(AllMethods(), ClassResource(res.value), family), family;
    case OnCall(methods, _, h) =>
      var existing := Probe(t, ep, re);
      var id := ShimOf(t, existing);
      entry := Merge(if existing.Some? then existing.value else Entry({}, Lambda(id), false), methods, id);
      isPrefix := false;
      SlotsAreApart(t, id, methods, h.value, ep.key, false);
  }

  lemma EndpointKeyIs(path: string, useRegex: bool, re: Regexes)
    ensures EndpointOf(path, useRegex, re).Ok? ==> EndpointOf(path, useRegex, re).value.key == LookupKey(path)
  {
  }

  /** The requests whose answer a torn registration of `path` takes away. */
  ghost function LostKeys(t: Table, path: string, re: Regexes): (ks: iset<string>)
  {
    iset key: string | Lost(t.trie, PathTokens(LookupKey(path)), RequestSegs(key), re)
  }

  /** A torn call changes what the radix and regex tiers answer for exactly these requests. */
  lemma TornTail(t: Table, c: Call, cfg: Config, re: Regexes, key: string)
    requires Shaped(t.trie) && Tears(t, c, cfg, re)
    ensures Tail(Perform(t, c, cfg, re).table, key, re) == Tail(t, key, re) <==> key !in LostKeys(t, c.path, re)
  {
    var entry, isPrefix := TornPerform(t, c, cfg, re);
    var segs, qs := PathTokens(LookupKey(c.path)), RequestSegs(key);
    var t' := Perform(t, c, cfg, re).table;
    hide Perform, Tears, Inserted, Lost, PathTokens, RequestSegs, FromFront, Search, InsertFails, Shaped;
    TornExactly(t.trie, segs, entry, isPrefix, re, qs);
    SearchFromFront(t.trie, qs, re);
    SearchFromFront(t'.trie, qs, re);
    NoRegexCaptures(t.regex, key, re);
  }

  lemma {:induction false} NoRegexCaptures(regex: seq<RegexRoute>, key: string, re: Regexes)
    ensures FirstRegex(regex, key, re).Some? ==> FirstRegex(regex, key, re).value.captures == []
  {
    if regex != [] { NoRegexCaptures(regex[1..], key, re); }
  }

  /** The requests a cache may answer wrongly: an accepted call clears it, a torn one adds to them. */
  ghost function LostAfter(lost: iset<string>, t: Table, c: Call, cfg: Config, re: Regexes): (r: iset<string>)
  {
    if Perform(t, c, cfg, re).accepted then iset{}
    else if Tears(t, c, cfg, re) then lost + LostKeys(t, c.path, re)
    else lost
  }

  lemma PlacedShaped(t: Table, key: string, entry: Entry, isPrefix: bool, re: Regexes)
    requires Shaped(t.trie)
    ensures Shaped(PlaceRadix(t, key, entry, isPrefix, re).table.trie)
  {
    InsertedShaped(t.trie, PathTokens(key), entry, isPrefix, re);
  }

  lemma OnShaped(t: Table, ep: Endpoint, methods: Mask, h: Handler, re: Regexes)
    requires Shaped(t.trie)
    ensures Shaped(OnPlain(t, ep, methods, h, re).table.trie) && Shaped(OnPattern(t, ep, methods, h, re).table.trie)
  {
    var existing := Probe(t, ep, re);
    var id := ShimOf(t, existing);
    var entry := Merge(if existing.Some? then existing.value else Entry({}, Lambda(id), false), methods, id);
    hide Shaped, Probe, Refuses, Collides, PlaceRadix, Filled, MergeRegex, TierOf, Merge;
    PlacedShaped(Commit(t, id, methods, h), ep.key, entry, false, re);
  }

  lemma RemovedPatternShaped(t: Table, key: string, isPrefix: bool)
    requires Shaped(t.trie)
    ensures Shaped(RemovePattern(t, key, isPrefix).trie)
  {
    RemovedShaped(t.trie, PathTokens(key), isPrefix);
  }

  lemma PerformShaped(t: Table, c: Call, cfg: Config, re: Regexes)
    requires Shaped(t.trie)
    ensures Shaped(Perform(t, c, cfg, re).table.trie)
  {
    hide Shaped, EndpointOf, OnPlain, OnPattern, RemovePattern, PlaceRadix, Guarded, TierOf, WithoutKey, AllMethods,
        InputsOk;
    var ep := EndpointOf(c.path, cfg.regexChecking, re);
    if ep.Ok? {
      var key := ep.value.key;
      match c
      case RegisterCall(_, res, family) =>
        if res.Some? { PlacedShaped(t, key, Entry(AllMethods(), ClassResource(res.value), family), family, re); }
      case UnregisterCall(_, family) => RemovedPatternShaped(t, key, family);
      case UnregisterAllCall(_) =>
        RemovedPatternShaped(EraseExactAndRegex(t, key), key, false);
        RemovedPatternShaped(RemovePattern(EraseExactAndRegex(t, key), key, false), key, true);
      case OnCall(methods, _, h) => if h.Some? { OnShaped(t, ep.value, methods, h.value, re); }
    }
  }
}
