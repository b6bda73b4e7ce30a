/**
 Runs of public calls, from a new server on, that show where a promise about registration fails.
 */
module RouteWitness {
  import opened Wrappers
  import opened Text
  import opened Paths
  import opened SegmentTrie
  import opened Endpoint
  import opened Routes
  import opened RouteLaws
  import RT = RouteTable

  /** A server without regex checking. */
  const CFG := Config(false, false)

  lemma SlashTokens(a: string, b: string)
    requires a != "" && b != "" && '/' !in a && '/' !in b
    ensures PathTokens("/" + a + "/" + "/" + b) == [a, b] && PathTokens("/" + a + "/" + b) == [a, b]
  {
    hide PathTokens;
    TokenOfWord(a);
    TokenOfWord(b);
    LeadingSlashTokens(a);
    TrailingSlashTokens("/" + a);
    TokensOfBoth("/" + a + "/", b);
    TokensOfBoth("/" + a, b);
  }

  lemma KeyTexts()
    ensures PathTokens("/a//b") == ["a", "b"] && PathTokens("/a/b") == ["a", "b"]
    ensures PathTokens("/a/{x}") == ["a", "{x}"]
    ensures PathTokens("/a/b/{y|[}") == ["a", "b", "{y|[}"]
  {
    hide *;
    SlashTokens("a", "b");
    SlashTokens("a", "{x}");
    assert "/" + "a" + "/" + "/" + "b" == "/a//b";
    assert "/" + "a" + "/" + "b" == "/a/b";
    assert "/" + "a" + "/" + "{x}" == "/a/{x}";
    TokenOfWord("{y|[}");
    TokensOfBoth("/a/b", "{y|[}");
    assert "/a/b" + "/" + "{y|[}" == "/a/b/{y|[}";
  }

  lemma OwnKeys()
    ensures Clean("/a//b") && Clean("/a/b") && Clean("/a/{x}") && Clean("/a/b/{y|[}")
  {
  }

  /** A path that is its own key and has no NUL. */
  predicate Clean(path: string) { LookupKey(path) == path && '\0' !in path }

  /** What registering a path comes down to, by its tokens. */
  lemma RegisterByTokens(t: Table, path: string, parts: seq<string>, id: nat, family: bool, re: Regexes)
    returns (ep: Endpoint)
    requires Clean(path) && PathTokens(path) == parts && WellFormed(parts)
    ensures EndpointOf(path, false, re) == Ok(ep) && ep.key == path && ep.params == ParamNames(parts) && !ep.compiled
    ensures Perform(t, RegisterCall(path, Some(id), family), CFG, re) == Register(t, ep, ClassResource(id), family, re)
    ensures InputsOk(CFG, RegisterCall(path, Some(id), family))
  {
    hide Register, NormalizedUrl, ParamNames, ParamPositions;
    ep := EndpointOf(path, false, re).value;
  }

  lemma PlainParts()
    ensures WellFormed(["a", "b"]) && ParamNames(["a", "b"]) == [] && NoWild(["a", "b"])
  {
    var parts := ["a", "b"];
    assert WellFormed(parts);
    assert parts[..1] == ["a"] && ["a"][..0] == [];
    assert ParamNames(["a"]) == [];
  }

  lemma ParamParts()
    ensures WellFormed(["a", "{x}"]) && ParamNames(["a", "{x}"]) != []
    ensures WellFormed(["a", "b", "{y|[}"]) && ParamNames(["a", "b", "{y|[}"]) != []
  {
    hide WildName;
  }

  // ---- the doubled slash -------------------------------------------------------------------

  /**
   The guard compares keys and the trie compares segments: "/a//b" as a path and "/a/b" as a prefix come down to the
   same segments.
   */
  lemma DoubledSlashIsMissed(re: Regexes, r: nat, s: nat)
    ensures var first := RegisterCall("/a//b", Some(r), false);
            var second := RegisterCall("/a/b", Some(s), true);
            && Perform(Performed([], CFG, re), first, CFG, re).accepted
            && Perform(Performed([first], CFG, re), second, CFG, re).accepted
            && !Apart(Performed([first, second], CFG, re))
  {
    hide *;
    KeyTexts();
    OwnKeys();
    PlainParts();
    assert "/a//b" != "/a/b" by { assert |"/a//b"| == 5 && |"/a/b"| == 4; }
    TwoWithTheSameSegments("/a//b", "/a/b", ["a", "b"], re, r, s);
  }

  /** Any two paths with the same literal segments and different keys, as a path and then as a prefix. */
  lemma TwoWithTheSameSegments(p: string, q: string, parts: seq<string>, re: Regexes, r: nat, s: nat)
    requires Clean(p) && Clean(q) && p != q && PathTokens(p) == parts && PathTokens(q) == parts
    requires WellFormed(parts) && ParamNames(parts) == [] && NoWild(parts)
    ensures var first, second := RegisterCall(p, Some(r), false), RegisterCall(q, Some(s), true);
            && Perform(Performed([], CFG, re), first, CFG, re).accepted
            && Perform(Performed([first], CFG, re), second, CFG, re).accepted
            && !Apart(Performed([first, second], CFG, re))
  {
    var first, second := RegisterCall(p, Some(r), false), RegisterCall(q, Some(s), true);
    var t0, t1 := NewTable(),
        Table(map[p := Entry(AllMethods(), ClassResource(r), false)], SegmentTrie.Empty(), [], []);
    hide PathTokens, LookupKey, EndpointOf, WellFormed, ParamNames, Apart, Perform, Register, Clean, NoWild,
        AllMethods, InputsOk;
    var ep := RegisterByTokens(t0, p, parts, r, false, re);
    ExactIntoNew(p, ep, parts, r, re);
    var eq := RegisterByTokens(t1, q, parts, s, true, re);
    PrefixBeside(p, eq, parts, r, s, re);
    assert [first][..0] == [] && [first, second][..1] == [first];
  }

  function NewTable(): (t: Table) { Table(map[], SegmentTrie.Empty(), [], []) }

  lemma ExactIntoNew(p: string, ep: Endpoint, parts: seq<string>, r: nat, re: Regexes)
    requires PathTokens(p) == parts && ep.key == p && ep.params == [] && !ep.compiled
    ensures Register(NewTable(), ep, ClassResource(r), false, re)
         == Outcome(Table(map[p := Entry(AllMethods(), ClassResource(r), false)], SegmentTrie.Empty(), [], []), true)
  {
    hide PathTokens, AllMethods;
    WalkEmpty<Entry>(parts, true);
  }

  lemma PrefixBeside(p: string, ep: Endpoint, parts: seq<string>, r: nat, s: nat, re: Regexes)
    requires PathTokens(p) == parts && PathTokens(ep.key) == parts && ep.key != p && NoWild(parts)
    ensures var t := Table(map[p := Entry(AllMethods(), ClassResource(r), false)], SegmentTrie.Empty(), [], []);
            var o := Register(t, ep, ClassResource(s), true, re);
            o.accepted && !Apart(o.table)
  {
    var t := Table(map[p := Entry(AllMethods(), ClassResource(r), false)], SegmentTrie.Empty(), [], []);
    forall segs: seq<string>, k: bool ensures At(t.trie, segs, k).None? { WalkEmpty<Entry>(segs, k); }
    CompiledPatternsAreSafe(t.trie, parts, re);
    hide PathTokens, AllMethods, At, InsertFails, Inserted;
    assert Apart(t);
    PrefixStaysApart(t, ep, ClassResource(s), re);
  }

  // ---- a torn registration ---------------------------------------------------------------

  /** The entry and the trie of the one route "/a/{x}". */
  function OneEntry(): (e: Entry) { Entry(AllMethods(), ClassResource(1), false) }

  function OneRoute(e: Entry): (n: Node<Entry>)
  {
    Node(map["a" := Node(map[], Some(Wild("x", "", Node(map[], None, Some(e), None))), None, None)], None, None, None)
  }

  lemma RouteMade(e: Entry, re: Regexes)
    ensures !InsertFails(SegmentTrie.Empty<Entry>(), ["a", "{x}"], re)
    ensures Inserted(SegmentTrie.Empty<Entry>(), ["a", "{x}"], e, false, re) == OneRoute(e)
  {
    var segs, none := ["a", "{x}"], SegmentTrie.Empty<Entry>();
    FirstOccurrence("{x}", '|', 3);
    assert WildConstraint("{x}") == "" && WildName("{x}") == "x";
    assert segs[1..] == ["{x}"] && segs[1..][1..] == [];
    assert Inserted(none, [], e, false, re) == Node(map[], None, Some(e), None);
    assert Inserted(none, ["{x}"], e, false, re)
        == Node(map[], Some(Wild("x", "", Node(map[], None, Some(e), None))), None, None);
    assert !InsertFails(none, ["{x}"], re);
  }

  lemma FirstRoute(re: Regexes)
    ensures Perform(NewTable(), RegisterCall("/a/{x}", Some(1), false), CFG, re)
         == Outcome(Table(map[], OneRoute(OneEntry()), [], []), true)
  {
    hide *;
    KeyTexts();
    OwnKeys();
    RouteMade(OneEntry(), re);
    ParamParts();
    var ep := RegisterByTokens(NewTable(), "/a/{x}", ["a", "{x}"], 1, false, re);
    PatternIntoNew(ep, ["a", "{x}"], re);
  }

  lemma PatternIntoNew(ep: Endpoint, parts: seq<string>, re: Regexes)
    requires PathTokens(ep.key) == parts && ep.params != [] && !InsertFails(SegmentTrie.Empty<Entry>(), parts, re)
    ensures Register(NewTable(), ep, ClassResource(1), false, re)
         == Outcome(Table(map[], Inserted(SegmentTrie.Empty(), parts, OneEntry(), false, re), [], []), true)
  {
    WalkEmpty<Entry>(parts, true);
    WalkEmpty<Entry>(parts, false);
    hide PathTokens, AllMethods, InsertFails, Inserted, At;
  }

  lemma TornTrie(e: Entry, re: Regexes)
    requires !re.valid("[")
    ensures InsertFails(OneRoute(e), ["a", "b", "{y|[}"], re) && Lost(OneRoute(e), ["a", "b", "{y|[}"], ["a", "b"], re)
  {
    var segs, qs := ["a", "b", "{y|[}"], ["a", "b"];
    FirstOccurrence("{y|[}", '|', 2);
    assert WildConstraint("{y|[}") == "[";
    assert segs[1..] == ["b", "{y|[}"] && segs[1..][1..] == ["{y|[}"] && qs[1..] == ["b"] && ["b"][1..] == [];
    var a := OneRoute(e).children["a"];
    var b := Child(a, "b");
    assert Throws(b, "{y|[}", re);
    assert FromFront(a.wild.value.node, [], re).Some?;
    assert Lost(a, ["b", "{y|[}"], ["b"], re);
  }

  lemma FoundBefore(e: Entry, re: Regexes)
    ensures Search(OneRoute(e), ["a", "b"], re) == Some(Match(e, [("x", "b")], false))
  {
    var n, a := OneRoute(e), OneRoute(e).children["a"];
    var none: Captures := [];
    SearchFromFront(n, ["a", "b"], re);
    assert ["a", "b"][1..] == ["b"] && ["b"][1..] == [] && [("x", "b")] + none == [("x", "b")];
    assert FromFront(a.wild.value.node, [], re) == Some(Match(e, [], false));
    assert FromFront(a, ["b"], re) == Some(Match(e, [("x", "b")], false));
    assert none + [("x", "b")] == [("x", "b")];
  }

  lemma SegsOfKey()
    ensures RequestSegs("/a/b") == ["a", "b"]
  {
    assert "/a/b"[1..] == "a/b";
    assert Text.Join(["a", "b"], '/') == "a/b" by { assert ["a", "b"][1..] == ["b"]; }
    FieldsOfJoin(["a", "b"], '/');
  }

  lemma NothingThere(e: Entry)
    ensures !HasTerminusAt(OneRoute(e), ["a", "b", "{y|[}"], true)
              && !HasTerminusAt(OneRoute(e), ["a", "b", "{y|[}"], false)
  {
    var segs := ["a", "b", "{y|[}"];
    assert segs[1..] == ["b", "{y|[}"];
    assert !IsWild("b") && "b" !in OneRoute(e).children["a"].children;
    assert Walk(OneRoute(e).children["a"], ["b", "{y|[}"]) == None;
  }

  lemma SecondTears(re: Regexes)
    requires !re.valid("[")
    ensures Tears(Table(map[], OneRoute(OneEntry()), [], []), RegisterCall("/a/b/{y|[}", Some(2), false), CFG, re)
  {
    hide *;
    KeyTexts();
    OwnKeys();
    TornTrie(OneEntry(), re);
    NothingThere(OneEntry());
    ParamParts();
    PatternTears(OneRoute(OneEntry()), "/a/b/{y|[}", ["a", "b", "{y|[}"], re);
  }

  lemma PatternTears(n: Node<Entry>, path: string, parts: seq<string>, re: Regexes)
    requires Clean(path) && PathTokens(path) == parts && WellFormed(parts) && ParamNames(parts) != []
    requires !HasTerminusAt(n, parts, true) && !HasTerminusAt(n, parts, false) && InsertFails(n, parts, re)
    ensures Tears(Table(map[], n, [], []), RegisterCall(path, Some(2), false), CFG, re)
  {
    hide PathTokens, LookupKey, EndpointOf, WellFormed, ParamNames, Perform, Clean, HasTerminusAt, InsertFails;
    var ep := RegisterByTokens(Table(map[], n, [], []), path, parts, 2, false, re);
  }

  /** The request "/a/b" is lost to it: found before, and not the same answer after. */
  lemma SecondLoses(re: Regexes)
    requires !re.valid("[")
    ensures var t := Table(map[], OneRoute(OneEntry()), [], []);
            var t' := Perform(t, RegisterCall("/a/b/{y|[}", Some(2), false), CFG, re).table;
            && Tail(t, "/a/b", re) == Some(Hit(OneEntry(), [("x", "b")])) && Tail(t', "/a/b", re) != Tail(t, "/a/b", re)
            && t'.exact == map[]
  {
    var t := Table(map[], OneRoute(OneEntry()), [], []);
    var c := RegisterCall("/a/b/{y|[}", Some(2), false);
    SecondTears(re);
    KeyTexts();
    OwnKeys();
    SegsOfKey();
    TornTrie(OneEntry(), re);
    FoundBefore(OneEntry(), re);
    RouteMade(OneEntry(), re);
    InsertedShaped(SegmentTrie.Empty<Entry>(), ["a", "{x}"], OneEntry(), false, re);
    var _, _ := TornPerform(t, c, CFG, re);
    hide PathTokens, LookupKey, RequestSegs, Search, OneRoute, Perform, Tears, Lost, OneEntry, Shaped, Inserted;
    TornTail(t, c, CFG, re, "/a/b");
  }

  /**
   Registering "/a/{x}", asking for "/a/b", registering "/a/b/{y|[}", which is refused, and asking again:
   the second answer is still the cached one, which the table no longer gives.
   */
  method StaleAnswer(re: Regexes, stray: char)
    returns (table: RT.RouteTable, refused: bool, before: Option<Hit>, after: Option<Hit>)
    requires !re.valid("[")
    ensures refused && before == Some(Hit(OneEntry(), [("x", "b")])) && after == before
    ensures table.re == re && Answer(table.State(), "/a/b", re) != after
  {
    hide LookupKey, Tail, OneRoute, OneEntry, Perform, Tears, LostKeys;
    FirstRoute(re);
    SecondLoses(re);
    SecondTears(re);
    OwnKeys();
    table := new RT.RouteTable(CFG, re, stray);
    var registered := table.Register("/a/{x}", Some(1), false);
    before := table.Lookup(0, "/a/b", true);
    TornRefuses(table.State(), re);
    var accepted := table.Register("/a/b/{y|[}", Some(2), false);
    refused := !accepted;
    after := table.Lookup(0, "/a/b", true);
  }

  lemma TornRefuses(t: Table, re: Regexes)
    requires Tears(t, RegisterCall("/a/b/{y|[}", Some(2), false), CFG, re)
    ensures !Perform(t, RegisterCall("/a/b/{y|[}", Some(2), false), CFG, re).accepted
  {
    var _, _ := TornPerform(t, RegisterCall("/a/b/{y|[}", Some(2), false), CFG, re);
  }
}
