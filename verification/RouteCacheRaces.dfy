/**
 The route cache under concurrency. A lookup walks the tiers under the table lock and installs
 its answer later under the cache lock; a call changes the table under the table lock and, if
 accepted, clears the cache later. Steps of any number of readers and writers interleave freely.
 */
module RouteCacheRaces {
  import opened Wrappers
  import opened SegmentTrie
  import opened Routes
  import opened RouteTable

  /** A cached value, with the table versions its walk read and its install happened under. */
  datatype Cached = Cached(value: Hit, walked: nat, installed: nat)

  /** A reader between its walk and its install. */
  datatype Reader = Reader(key: CacheKey, value: Hit, walked: nat)

  /**
   `tables` is the history of the route table, `calls` what led from each to the next; `pending` counts clears to
   come.
   */
  datatype State = State(tables: seq<Table>, calls: seq<Call>, pending: nat, cache: map<CacheKey, Cached>,
      readers: map<nat, Reader>)

  datatype Step =
    | Walk(reader: nat, key: CacheKey)
    | Install(reader: nat)
    | Mutate(call: Call)
    | Clear
    | Evict(key: CacheKey)

  /** The table has a current version. */
  predicate Begun(s: State) { |s.tables| == |s.calls| + 1 }

  function Version(s: State): (v: nat)
    requires Begun(s)
  {
    |s.calls|
  }

  predicate Enabled(s: State, step: Step)
  {
    Begun(s) &&
    match step
    case Walk(reader, _) => reader !in s.readers
    case Install(reader) => reader in s.readers
    case Clear => s.pending > 0
    case _ => true
  }

  /**
   A walk that finds nothing has nothing to install. Only an accepted call is followed by a clear; a refused one may
   have torn the table all the same.
   */
  function Next(s: State, step: Step, cfg: Config, re: Regexes): (s': State)
    requires Enabled(s, step)
    ensures Begun(s')
  {
    match step
    case Walk(reader, key) =>
      var found := Tail(s.tables[Version(s)], key.path, re);
      if found.None? then s else s.(readers := s.readers[reader := Reader(key, found.value, Version(s))])
    case Install(reader) =>
      var r := s.readers[reader];
      s.(cache := s.cache[r.key := Cached(r.value, r.walked, Version(s))], readers := s.readers - {reader})
    case Mutate(call) =>
      var o := Perform(s.tables[Version(s)], call, cfg, re);
      s.(tables := s.tables + [o.table], calls := s.calls + [call], pending := s.pending + if o.accepted then 1 else 0)
    case Clear => s.(cache := map[], pending := s.pending - 1)
    case Evict(key) => s.(cache := s.cache - {key})
  }

  function Start(t: Table): (s: State) { State([t], [], 0, map[], map[]) }

  predicate CanRun(s: State, steps: seq<Step>, cfg: Config, re: Regexes)
    decreases |steps|
  {
    steps == [] || (Enabled(s, steps[0]) && CanRun(Next(s, steps[0], cfg, re), steps[1..], cfg, re))
  }

  function Ran(s: State, steps: seq<Step>, cfg: Config, re: Regexes): (r: State)
    requires Begun(s) && CanRun(s, steps, cfg, re)
    ensures Begun(r)
    decreases |steps|
  {
    if steps == [] then s else Ran(Next(s, steps[0], cfg, re), steps[1..], cfg, re)
  }

  /** What a lookup that walks the tiers now would find. */
  function Now(s: State, key: CacheKey, re: Regexes): (r: Option<Hit>)
    requires Begun(s)
  {
    Tail(s.tables[Version(s)], key.path, re)
  }

  /** The call that left version `j` was accepted; or it tore the table, and the request was lost to it. */
  predicate AcceptedAt(s: State, j: nat, cfg: Config, re: Regexes)
    requires Begun(s)
  {
    j < Version(s) && Perform(s.tables[j], s.calls[j], cfg, re).accepted
  }

  ghost predicate LostAt(s: State, j: nat, key: CacheKey, cfg: Config, re: Regexes)
    requires Begun(s)
  {
    j < Version(s) && Tears(s.tables[j], s.calls[j], cfg, re) && key.path in LostKeys(s.tables[j], s.calls[j].path, re)
  }

  /** What a walk of version `walked` answered. */
  ghost predicate AnswerOfVersion(s: State, key: CacheKey, value: Hit, walked: nat, re: Regexes)
  {
    walked < |s.tables| && Tail(s.tables[walked], key.path, re) == Some(value)
  }

  ghost predicate CacheOk(s: State, key: CacheKey, c: Cached, cfg: Config, re: Regexes)
    requires Begun(s)
  {
    && AnswerOfVersion(s, key, c.value, c.walked, re)
    && c.walked <= c.installed <= Version(s)
    && (s.pending == 0 ==> forall j: nat :: c.installed <= j ==> !AcceptedAt(s, j, cfg, re))
  }

  /** Each version follows from the one before by its call. */
  ghost predicate History(s: State, cfg: Config, re: Regexes)
  {
    && Begun(s) && (forall t <- s.tables :: Shaped(t.trie))
    && forall j :: 0 <= j < |s.calls| ==> s.tables[j + 1] == Perform(s.tables[j], s.calls[j], cfg, re).table
  }

  ghost predicate Inv(s: State, cfg: Config, re: Regexes)
  {
    && History(s, cfg, re)
    && (forall k <- s.cache :: CacheOk(s, k, s.cache[k], cfg, re))
    && (forall r <- s.readers :: AnswerOfVersion(s, s.readers[r].key, s.readers[r].value, s.readers[r].walked, re))
  }

  // ---- every step keeps it -----------------------------------------------------------------

  lemma MoreHistory(s: State, call: Call, cfg: Config, re: Regexes)
    requires Begun(s)
    ensures var s' := Next(s, Mutate(call), cfg, re);
            && (forall k: CacheKey, v: Hit, w: nat :: AnswerOfVersion(s, k, v, w, re)
                 ==> AnswerOfVersion(s', k, v, w, re))
            && (forall j: nat :: j < Version(s) ==> AcceptedAt(s', j, cfg, re) == AcceptedAt(s, j, cfg, re))
            && AcceptedAt(s', Version(s), cfg, re) == (s'.pending > s.pending)
  {
    hide Tail, Perform;
    var s' := Next(s, Mutate(call), cfg, re);
    assert forall w: nat :: w < |s.tables| ==> s'.tables[w] == s.tables[w];
    assert forall j: nat :: j < |s.calls| ==> s'.calls[j] == s.calls[j];
    assert s'.calls[Version(s)] == call;
  }

  lemma MoreShaped(s: State, call: Call, cfg: Config, re: Regexes)
    requires History(s, cfg, re)
    ensures History(Next(s, Mutate(call), cfg, re), cfg, re)
  {
    hide Perform, Shaped;
    var s', t := Next(s, Mutate(call), cfg, re), s.tables[Version(s)];
    assert t in s.tables;
    PerformShaped(t, call, cfg, re);
    assert forall w: nat :: w < |s.tables| ==> s'.tables[w] == s.tables[w];
    assert forall j: nat :: j < |s.calls| ==> s'.calls[j] == s.calls[j];
  }

  lemma MutateKeeps(s: State, call: Call, cfg: Config, re: Regexes)
    requires Inv(s, cfg, re)
    ensures Inv(Next(s, Mutate(call), cfg, re), cfg, re)
  {
    hide AnswerOfVersion, AcceptedAt, History, Perform;
    assert Begun(s) by { BegunOf(s, cfg, re); }
    var s' := Next(s, Mutate(call), cfg, re);
    MoreShaped(s, call, cfg, re);
    MoreHistory(s, call, cfg, re);
    NoneBeyond(s', cfg, re);
    forall k <- s'.cache ensures CacheOk(s', k, s'.cache[k], cfg, re) {
      assert CacheOk(s, k, s.cache[k], cfg, re);
    }
  }

  lemma BegunOf(s: State, cfg: Config, re: Regexes)
    requires History(s, cfg, re)
    ensures Begun(s)
  {
  }

  lemma NoneBeyond(s: State, cfg: Config, re: Regexes)
    requires Begun(s)
    ensures forall j: nat :: j >= Version(s) ==> !AcceptedAt(s, j, cfg, re)
  {
  }

  lemma SameHistory(s: State, s': State, cfg: Config, re: Regexes)
    requires s'.tables == s.tables && s'.calls == s.calls && s'.pending == s.pending && Begun(s)
    ensures History(s', cfg, re) == History(s, cfg, re)
    ensures forall k: CacheKey, v: Hit, w: nat :: AnswerOfVersion(s', k, v, w, re) == AnswerOfVersion(s, k, v, w, re)
    ensures forall k: CacheKey, c: Cached :: CacheOk(s', k, c, cfg, re) == CacheOk(s, k, c, cfg, re)
  {
    hide Tail, Perform, Shaped;
    assert forall j: nat :: AcceptedAt(s', j, cfg, re) == AcceptedAt(s, j, cfg, re);
  }

  lemma WalkKeeps(s: State, reader: nat, key: CacheKey, cfg: Config, re: Regexes)
    requires Inv(s, cfg, re) && Enabled(s, Walk(reader, key))
    ensures Inv(Next(s, Walk(reader, key), cfg, re), cfg, re)
  {
    hide Tail, CacheOk, History;
    var s' := Next(s, Walk(reader, key), cfg, re);
    SameHistory(s, s', cfg, re);
  }

  lemma InstalledOk(s: State, r: Reader, cfg: Config, re: Regexes)
    requires Begun(s) && AnswerOfVersion(s, r.key, r.value, r.walked, re)
    ensures CacheOk(s, r.key, Cached(r.value, r.walked, Version(s)), cfg, re)
  {
    hide Tail, Perform;
    NoneBeyond(s, cfg, re);
  }

  lemma InstallKeeps(s: State, reader: nat, cfg: Config, re: Regexes)
    requires Inv(s, cfg, re) && Enabled(s, Install(reader))
    ensures Inv(Next(s, Install(reader), cfg, re), cfg, re)
  {
    hide AnswerOfVersion, CacheOk, History;
    var s' := Next(s, Install(reader), cfg, re);
    SameHistory(s, s', cfg, re);
    InstalledOk(s, s.readers[reader], cfg, re);
  }

  lemma ClearKeeps(s: State, cfg: Config, re: Regexes)
    requires Inv(s, cfg, re) && Enabled(s, Clear)
    ensures Inv(Next(s, Clear, cfg, re), cfg, re)
  {
    hide Tail, Perform, Shaped;
  }

  lemma EvictKeeps(s: State, key: CacheKey, cfg: Config, re: Regexes)
    requires Inv(s, cfg, re)
    ensures Inv(Next(s, Evict(key), cfg, re), cfg, re)
  {
    hide AnswerOfVersion, CacheOk, History;
    assert Begun(s) by { BegunOf(s, cfg, re); }
    SameHistory(s, Next(s, Evict(key), cfg, re), cfg, re);
  }

  lemma StepKeeps(s: State, step: Step, cfg: Config, re: Regexes)
    requires Inv(s, cfg, re) && Enabled(s, step)
    ensures Inv(Next(s, step, cfg, re), cfg, re)
  {
    hide Inv, Next;
    match step
    case Walk(reader, key) => WalkKeeps(s, reader, key, cfg, re);
    case Install(reader) => InstallKeeps(s, reader, cfg, re);
    case Mutate(call) => MutateKeeps(s, call, cfg, re);
    case Clear => ClearKeeps(s, cfg, re);
    case Evict(key) => EvictKeeps(s, key, cfg, re);
  }

  lemma {:induction false} RunKeeps(s: State, steps: seq<Step>, cfg: Config, re: Regexes)
    requires Begun(s) && Inv(s, cfg, re) && CanRun(s, steps, cfg, re)
    ensures Inv(Ran(s, steps, cfg, re), cfg, re)
    decreases |steps|
  {
    hide Inv, Next;
    if steps != [] {
      StepKeeps(s, steps[0], cfg, re);
      RunKeeps(Next(s, steps[0], cfg, re), steps[1..], cfg, re);
    }
  }

  // ---- staleness ---------------------------------------------------------------------------

  /** A call that is refused changes only the answers of requests that are lost to it. */
  lemma RefusedKeepsAnswer(t: Table, call: Call, cfg: Config, re: Regexes, path: string)
    requires Shaped(t.trie) && !Perform(t, call, cfg, re).accepted
    requires Tears(t, call, cfg, re) ==> path !in LostKeys(t, call.path, re)
    ensures Tail(Perform(t, call, cfg, re).table, path, re) == Tail(t, path, re)
  {
    hide Perform, Tears, LostKeys, Shaped, Search;
    if Tears(t, call, cfg, re) {
      TornTail(t, call, cfg, re, path);
    } else {
      RefusedKeepsTiers(t, call, cfg, re);
    }
  }

  /** With neither an accepted call nor a loss on the way the answer stays. */
  lemma {:induction false} AnswerStays(s: State, key: CacheKey, i: nat, j: nat, cfg: Config, re: Regexes)
    requires History(s, cfg, re) && i <= j <= Version(s)
    requires forall v: nat :: i <= v < j ==> !AcceptedAt(s, v, cfg, re) && !LostAt(s, v, key, cfg, re)
    ensures Tail(s.tables[i], key.path, re) == Tail(s.tables[j], key.path, re)
    decreases j - i
  {
    hide Tail, Perform, Tears, LostKeys, Shaped;
    if i < j {
      assert !AcceptedAt(s, i, cfg, re) && !LostAt(s, i, key, cfg, re);
      assert s.tables[i] in s.tables;
      RefusedKeepsAnswer(s.tables[i], s.calls[i], cfg, re, key.path);
      AnswerStays(s, key, i + 1, j, cfg, re);
    }
  }

  /** The ways a cached value can be out of date. */
  ghost predicate Overtaken(s: State, k: CacheKey, c: Cached, cfg: Config, re: Regexes)
    requires Begun(s)
  {
    || s.pending > 0
    || (exists j: nat :: c.walked <= j < c.installed && AcceptedAt(s, j, cfg, re))
    || (exists j: nat :: c.walked <= j && LostAt(s, j, k, cfg, re))
  }

  /**
   In every run every cached value is the answer of some version of the table, and when it is not the current answer
   then a clear is still to come, or a call was accepted between the walk that found it and its install, or the request
   was lost to a torn registration since that walk.
   */
  lemma StaleOnlyWhen(t: Table, steps: seq<Step>, cfg: Config, re: Regexes, k: CacheKey)
    requires Shaped(t.trie) && CanRun(Start(t), steps, cfg, re) && k in Ran(Start(t), steps, cfg, re).cache
    ensures var s := Ran(Start(t), steps, cfg, re);
            var c := s.cache[k];
            && c.walked <= c.installed < |s.tables|
            && Tail(s.tables[c.walked], k.path, re) == Some(c.value)
            && (Now(s, k, re) != Some(c.value) ==> Overtaken(s, k, c, cfg, re))
  {
    hide Tail, Perform, AcceptedAt, LostAt, CanRun, Ran;
    RunKeeps(Start(t), steps, cfg, re);
    var s := Ran(Start(t), steps, cfg, re);
    var c := s.cache[k];
    assert CacheOk(s, k, c, cfg, re);
    if !Overtaken(s, k, c, cfg, re) { AnswerStays(s, k, c.walked, Version(s), cfg, re); }
  }

  /** With every clear done, no call between a walk and its install, and nothing torn, the cache is coherent. */
  lemma QuietCacheIsCoherent(t: Table, steps: seq<Step>, cfg: Config, re: Regexes)
    requires Shaped(t.trie) && CanRun(Start(t), steps, cfg, re)
    ensures var s := Ran(Start(t), steps, cfg, re);
            && s.pending == 0 && (forall k <- s.cache :: s.cache[k].walked == s.cache[k].installed)
            && (forall j :: 0 <= j < Version(s) ==> !Tears(s.tables[j], s.calls[j], cfg, re))
            ==> forall k <- s.cache :: Now(s, k, re) == Some(s.cache[k].value)
  {
    hide Now, Perform, Tears, CanRun, Ran, AcceptedAt, Tail;
    var s := Ran(Start(t), steps, cfg, re);
    forall k <- s.cache ensures Now(s, k, re) != Some(s.cache[k].value) ==> Overtaken(s, k, s.cache[k], cfg, re) {
      StaleOnlyWhen(t, steps, cfg, re, k);
    }
  }

  // ---- each way happens ----------------------------------------------------------------------

  lemma RunFrom(s: State, step: Step, rest: seq<Step>, cfg: Config, re: Regexes)
    requires Enabled(s, step) && CanRun(Next(s, step, cfg, re), rest, cfg, re)
    ensures CanRun(s, [step] + rest, cfg, re)
    ensures Ran(s, [step] + rest, cfg, re) == Ran(Next(s, step, cfg, re), rest, cfg, re)
  {
    hide Next;
    var steps := [step] + rest;
    assert steps[0] == step && steps[1..] == rest;
  }

  /** An eviction forgets one key, and a clear all of them; neither touches the table or a walk under way. */
  lemma Forgetting(s: State, k: CacheKey, other: CacheKey, cfg: Config, re: Regexes)
    requires Begun(s)
    ensures var s' := Next(s, Evict(k), cfg, re);
            && k !in s'.cache && (other != k ==> (other in s'.cache <==> other in s.cache))
            && (other in s'.cache ==> s'.cache[other] == s.cache[other])
            && s'.tables == s.tables && s'.readers == s.readers && s'.pending == s.pending
    ensures s.pending > 0 ==>
              var s' := Next(s, Clear, cfg, re);
              other !in s'.cache && s'.tables == s.tables && s'.readers == s.readers && s'.pending == s.pending - 1
  {
  }

  /** A walk and its install with nothing between them leave the current answer in the cache, from any state. */
  lemma FreshInstall(s: State, reader: nat, k: CacheKey, cfg: Config, re: Regexes)
    requires Begun(s) && reader !in s.readers && Now(s, k, re).Some?
    ensures var steps := [Walk(reader, k), Install(reader)];
            && CanRun(s, steps, cfg, re)
            && var s' := Ran(s, steps, cfg, re);
               && k in s'.cache && Some(s'.cache[k].value) == Now(s', k, re) == Now(s, k, re)
               && s'.cache[k].walked == s'.cache[k].installed == Version(s)
               && s'.readers == s.readers && s'.cache - {k} == s.cache - {k}
  {
    hide Tail;
    var s1 := Next(s, Walk(reader, k), cfg, re);
    var s2 := Next(s1, Install(reader), cfg, re);
    assert s1.readers - {reader} == s.readers;
    assert s2.cache - {k} == s.cache - {k};
    RunFrom(s1, Install(reader), [], cfg, re);
    RunFrom(s, Walk(reader, k), [Install(reader)] + [], cfg, re);
    assert [Walk(reader, k)] + ([Install(reader)] + []) == [Walk(reader, k), Install(reader)];
  }

  /** The second case is real: a whole call, its clear included, can fall between a walk and its install. */
  lemma StaleWithNothingPending(t: Table, c: Call, k: CacheKey, cfg: Config, re: Regexes)
    requires Perform(t, c, cfg, re).accepted
    requires Tail(t, k.path, re).Some? && Tail(Perform(t, c, cfg, re).table, k.path, re) != Tail(t, k.path, re)
    ensures var steps := [Walk(0, k), Mutate(c), Clear, Install(0)];
            && CanRun(Start(t), steps, cfg, re)
            && var s := Ran(Start(t), steps, cfg, re);
               s.pending == 0 && k in s.cache && Some(s.cache[k].value) != Now(s, k, re)
  {
    hide Tail, Perform;
    var v, t' := Tail(t, k.path, re).value, Perform(t, c, cfg, re).table;
    var s1 := Next(Start(t), Walk(0, k), cfg, re);
    var s2 := Next(s1, Mutate(c), cfg, re);
    var s3 := Next(s2, Clear, cfg, re);
    var s4 := Next(s3, Install(0), cfg, re);
    assert s1 == State([t], [], 0, map[], map[0 := Reader(k, v, 0)]);
    assert s2 == State([t, t'], [c], 1, map[], s1.readers);
    assert s4.tables == [t, t'] && s4.calls == [c] && s4.cache[k] == Cached(v, 0, 1);
    RunFrom(s3, Install(0), [], cfg, re);
    RunFrom(s2, Clear, [Install(0)] + [], cfg, re);
    RunFrom(s1, Mutate(c), [Clear] + ([Install(0)] + []), cfg, re);
    RunFrom(Start(t), Walk(0, k), [Mutate(c)] + ([Clear] + ([Install(0)] + [])), cfg, re);
    assert [Walk(0, k)] + ([Mutate(c)] + ([Clear] + ([Install(0)] + []))) == [Walk(0, k), Mutate(c), Clear, Install(0)];
  }

  lemma TornIsRefused(t: Table, c: Call, cfg: Config, re: Regexes)
    requires Tears(t, c, cfg, re)
    ensures !Perform(t, c, cfg, re).accepted
  {
    hide *;
    var _, _ := TornPerform(t, c, cfg, re);
  }

  /** So is the third: a torn registration leaves the answers it took away in the cache, with nothing to clear them. */
  lemma StaleAfterTear(t: Table, c: Call, k: CacheKey, cfg: Config, re: Regexes)
    requires Shaped(t.trie) && Tears(t, c, cfg, re) && k.path in LostKeys(t, c.path, re) && Tail(t, k.path, re).Some?
    ensures var steps := [Walk(0, k), Install(0), Mutate(c)];
            && CanRun(Start(t), steps, cfg, re)
            && var s := Ran(Start(t), steps, cfg, re);
               && s.pending == 0 && k in s.cache && s.cache[k].walked == s.cache[k].installed
               && Some(s.cache[k].value) != Now(s, k, re)
  {
    hide Tail, Perform, Tears, LostKeys, Shaped;
    TornTail(t, c, cfg, re, k.path);
    TornIsRefused(t, c, cfg, re);
    var v, t' := Tail(t, k.path, re).value, Perform(t, c, cfg, re).table;
    var s1 := Next(Start(t), Walk(0, k), cfg, re);
    var s2 := Next(s1, Install(0), cfg, re);
    var s3 := Next(s2, Mutate(c), cfg, re);
    assert s1 == State([t], [], 0, map[], map[0 := Reader(k, v, 0)]);
    assert s2.tables == [t] && s2.calls == [] && s2.pending == 0 && s2.cache == map[k := Cached(v, 0, 0)];
    assert s3.tables == [t, t'] && s3.calls == [c] && s3.pending == 0 && s3.cache == s2.cache;
    RunFrom(s2, Mutate(c), [], cfg, re);
    RunFrom(s1, Install(0), [Mutate(c)] + [], cfg, re);
    RunFrom(Start(t), Walk(0, k), [Install(0)] + ([Mutate(c)] + []), cfg, re);
    assert [Walk(0, k)] + ([Install(0)] + ([Mutate(c)] + [])) == [Walk(0, k), Install(0), Mutate(c)];
  }
}
