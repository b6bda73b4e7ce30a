/**
 Firing hooks. A firing copies the phase's vector first and runs the copy, so hooks may add and
 remove hooks while it runs; a throwing hook counts as one that passed; the first hook that
 responds ends a short-circuiting chain.
 */
module HookFiring {
  import opened Wrappers
  import opened HookBus

  datatype Action = Pass | Respond(response: nat) | Throw

  /** A hook may edit the server's bus or the hook table of the resource at hand. */
  datatype Edit = AddHook(onRoute: bool, phase: Phase, fn: nat) | RemoveHook(onRoute: bool, phase: Phase, id: nat)

  datatype Reaction = Reaction(action: Action, edits: seq<Edit>)

  /** The resource's table is created by the first hook added to it. */
  datatype Hooks = Hooks(server: Bus, route: Option<Bus>)

  /** What a callback does, given the response it is shown and the hooks as they are when it runs. */
  type Behaviour = (nat, nat, Hooks) -> Reaction

  datatype Call = HookCall(slot: Slot) | AliasCall(fn: nat)

  datatype Fired = Fired(hooks: Hooks, calls: seq<Call>, response: Option<nat>)

  function RouteBus(h: Hooks): (b: Bus) { if h.route.Some? then h.route.value else NewBus() }

  function Edited(h: Hooks, e: Edit): (r: Hooks)
  {
    match e
    case AddHook(false, p, fn) => h.(server := Added(h.server, p, fn))
    case AddHook(true, p, fn) => h.(route := Some(Added(RouteBus(h), p, fn)))
    case RemoveHook(false, p, id) => h.(server := Removed(h.server, p, id))
    case RemoveHook(true, p, id) => if h.route.None? then h else h.(route := Some(Removed(h.route.value, p, id)))
  }

  function EditedAll(h: Hooks, es: seq<Edit>): (r: Hooks)
    decreases |es|
  {
    if es == [] then h else EditedAll(Edited(h, es[0]), es[1..])
  }

  // ---- chains ----------------------------------------------------------------------------

  /** The hooks once the first `i` callbacks of the snapshot have run. */
  function After(act: Behaviour, shown: nat, h: Hooks, snapshot: seq<Slot>, i: nat): (r: Hooks)
    requires i <= |snapshot|
  {
    if i == 0 then h
    else
      var before := After(act, shown, h, snapshot, i - 1);
      EditedAll(before, act(snapshot[i - 1].fn, shown, before).edits)
  }

  /** What the `i`-th callback of the snapshot does when its turn comes. */
  function ReactionOf(act: Behaviour, shown: nat, h: Hooks, snapshot: seq<Slot>, i: nat): (a: Action)
    requires i < |snapshot|
  {
    act(snapshot[i].fn, shown, After(act, shown, h, snapshot, i)).action
  }

  /** The first responder at or after `i`, or the length of the snapshot. */
  function FirstResponder(act: Behaviour, shown: nat, h: Hooks, snapshot: seq<Slot>, i: nat): (k: nat)
    requires i <= |snapshot|
    ensures i <= k <= |snapshot|
    ensures forall j :: i <= j < k ==> !ReactionOf(act, shown, h, snapshot, j).Respond?
    ensures k < |snapshot| ==> ReactionOf(act, shown, h, snapshot, k).Respond?
    decreases |snapshot| - i
  {
    if i == |snapshot| || ReactionOf(act, shown, h, snapshot, i).Respond? then i
    else FirstResponder(act, shown, h, snapshot, i + 1)
  }

  function CallsOf(slots: seq<Slot>): (cs: seq<Call>)
    ensures |cs| == |slots| && forall i :: 0 <= i < |slots| ==> cs[i] == HookCall(slots[i])
  {
    seq(|slots|, i requires 0 <= i < |slots| => HookCall(slots[i]))
  }

  /** A short-circuiting chain: the snapshot in registration order, up to and including the first responder. */
  function Chain(act: Behaviour, shown: nat, h: Hooks, snapshot: seq<Slot>): (f: Fired)
  {
    var k := FirstResponder(act, shown, h, snapshot, 0);
    if k == |snapshot| then Fired(After(act, shown, h, snapshot, k), CallsOf(snapshot), None)
    else Fired(After(act, shown, h, snapshot, k + 1), CallsOf(snapshot[..k + 1]),
               Some(ReactionOf(act, shown, h, snapshot, k).response))
  }

  /** An observing chain: all of the snapshot, whatever the hooks do. */
  function Observe(act: Behaviour, shown: nat, h: Hooks, snapshot: seq<Slot>): (f: Fired)
  {
    Fired(After(act, shown, h, snapshot, |snapshot|), CallsOf(snapshot), None)
  }

  /** An alias slot at the end of a server chain: one more callback, only when nobody has responded. */
  function Aliased(act: Behaviour, shown: nat, f: Fired, alias: Option<nat>): (r: Fired)
  {
    if f.response.Some? || alias.None? then f
    else
      var reaction := act(alias.value, shown, f.hooks);
      Fired(EditedAll(f.hooks, reaction.edits), f.calls + [AliasCall(alias.value)],
            if reaction.action.Respond? then Some(reaction.action.response) else None)
  }

  function ServerVec(h: Hooks, p: Phase): (v: seq<Slot>) { Vec(h.server, p) }

  function RouteVec(h: Hooks, p: Phase): (v: seq<Slot>) { Vec(RouteBus(h), p) }

  /** The chain of the server alone. */
  function ServerChain(act: Behaviour, shown: nat, h: Hooks, p: Phase): (f: Fired)
  {
    if p == HandlerException then Aliased(act, shown, Chain(act, shown, h, ServerVec(h, p)), h.server.exceptionAlias)
    else Chain(act, shown, h, ServerVec(h, p))
  }

  function Join(a: Fired, b: Fired): (f: Fired) { Fired(b.hooks, a.calls + b.calls, b.response) }

  /** Server-wide hooks, then the route's own, unless the server's responded. */
  function Ungated(act: Behaviour, shown: nat, h: Hooks, p: Phase): (f: Fired)
  {
    var server := ServerChain(act, shown, h, p);
    if server.response.Some? then server
    else Join(server, Chain(act, shown, server.hooks, RouteVec(server.hooks, p)))
  }

  /** after_handler: the route's hooks always run, and see the response the server's hooks left. */
  function UngatedAfter(act: Behaviour, shown: nat, h: Hooks): (f: Fired)
  {
    var server := Chain(act, shown, h, ServerVec(h, AfterHandler));
    var now := if server.response.Some? then server.response.value else shown;
    var route := Chain(act, now, server.hooks, RouteVec(server.hooks, AfterHandler));
    Fired(route.hooks, server.calls + route.calls, if route.response.Some? then route.response else server.response)
  }

  // ---- what the connection remembers of the route -----------------------------------------

  /**
   finalize_answer notes whether the resource had a hook table, and keeps a weak reference to the
   resource only if it had one or a server-wide request_completed hook was there; the resource may be
   gone by the time the request completes.
   */
  datatype Visit = Visit(hadTable: bool, stamped: bool, alive: bool)

  function VisitOf(h: Hooks, alive: bool): (v: Visit)
  {
    Visit(h.route.Some?, h.route.Some? || RequestCompleted in h.server.gates, alive)
  }

  /** handler_exception and request_completed go through the weak reference, the other phases to the resource itself. */
  predicate Reaches(v: Visit, h: Hooks, p: Phase)
  {
    match p
    case HandlerException => v.stamped
    case RequestCompleted => (ServerGate(h, p) || v.hadTable) && v.stamped && v.alive
    case _ => true
  }

  /** The route's hooks for the phase; a resource that is gone has none. */
  function RouteHooks(v: Visit, h: Hooks, p: Phase): (s: seq<Slot>)
  {
    if p == RequestCompleted && !v.alive then [] else RouteVec(h, p)
  }

  // ---- gates -----------------------------------------------------------------------------

  predicate ServerGate(h: Hooks, p: Phase)
  {
    p in h.server.gates || (p == HandlerException && h.server.exceptionAlias.Some?)
  }

  predicate RouteGate(v: Visit, h: Hooks, p: Phase) { Reaches(v, h, p) && h.route.Some? && p in h.route.value.gates }

  ghost predicate GatesRight(h: Hooks, p: Phase)
  {
    Gated(h.server, p) && Gated(RouteBus(h), p) && !AliasWired(RouteBus(h), p)
  }

  /** Both gates are read before anything fires. */
  function GatedChain(act: Behaviour, shown: nat, v: Visit, h: Hooks, p: Phase): (f: Fired)
  {
    var server := if ServerGate(h, p) then ServerChain(act, shown, h, p) else Fired(h, [], None);
    if server.response.Some? || !RouteGate(v, h, p) then server
    else Join(server, Chain(act, shown, server.hooks, RouteVec(server.hooks, p)))
  }

  function GatedAfter(act: Behaviour, shown: nat, v: Visit, h: Hooks): (f: Fired)
  {
    var server := if ServerGate(h, AfterHandler) then Chain(act, shown, h, ServerVec(h, AfterHandler))
                  else Fired(h, [], None);
    var now := if server.response.Some? then server.response.value else shown;
    if !RouteGate(v, h, AfterHandler) then server
    else
      var route := Chain(act, now, server.hooks, RouteVec(server.hooks, AfterHandler));
      Fired(route.hooks, server.calls + route.calls, if route.response.Some? then route.response else server.response)
  }

  /**
   By the time the route's turn comes it has hooks, but its gate was closed or the table out of reach at the start.
   */
  predicate Missed(v: Visit, h: Hooks, p: Phase, server: Fired)
  {
    !RouteGate(v, h, p) && RouteHooks(v, server.hooks, p) != []
  }

  /** Why: the vector was empty when the firing began, or the resource got its table after it was looked up. */
  lemma WhyMissed(v: Visit, h: Hooks, p: Phase, server: Fired)
    requires GatesRight(h, p)
    ensures Missed(v, h, p, server)
       <==> RouteHooks(v, server.hooks, p) != [] && (RouteVec(h, p) == [] || !Reaches(v, h, p))
  {
  }

  lemma EmptyChain(act: Behaviour, shown: nat, h: Hooks)
    ensures Chain(act, shown, h, []) == Fired(h, [], None)
  {
  }

  lemma ChainCalls(act: Behaviour, shown: nat, h: Hooks, snapshot: seq<Slot>)
    requires snapshot != []
    ensures Chain(act, shown, h, snapshot).calls != []
  {
  }

  lemma ClosedServerGate(act: Behaviour, shown: nat, h: Hooks, p: Phase)
    requires Gated(h.server, p) && !ServerGate(h, p)
    ensures ServerChain(act, shown, h, p) == Fired(h, [], None)
  {
    EmptyChain(act, shown, h);
  }

  /** Gated firing is ungated firing exactly when the server responded or no hook of the route was missed. */
  lemma GatesAreInvisible(act: Behaviour, shown: nat, v: Visit, h: Hooks, p: Phase)
    requires GatesRight(h, p) && p != RequestCompleted
    ensures GatedChain(act, shown, v, h, p) == Ungated(act, shown, h, p)
       <==> ServerChain(act, shown, h, p).response.Some? || !Missed(v, h, p, ServerChain(act, shown, h, p))
  {
    var server := ServerChain(act, shown, h, p);
    if !ServerGate(h, p) { ClosedServerGate(act, shown, h, p); }
    hide ServerChain, Chain;
    if server.response.None? && !RouteGate(v, h, p) {
      var s := RouteVec(server.hooks, p);
      EmptyChain(act, shown, server.hooks);
      if s != [] { ChainCalls(act, shown, server.hooks, s); }
      assert server.calls + [] == server.calls;
    }
  }

  lemma AfterGatesAreInvisible(act: Behaviour, shown: nat, v: Visit, h: Hooks)
    requires GatesRight(h, AfterHandler)
    ensures GatedAfter(act, shown, v, h) == UngatedAfter(act, shown, h)
       <==> !Missed(v, h, AfterHandler, Chain(act, shown, h, ServerVec(h, AfterHandler)))
  {
    var server := Chain(act, shown, h, ServerVec(h, AfterHandler));
    if !ServerGate(h, AfterHandler) { EmptyChain(act, shown, h); }
    var now := if server.response.Some? then server.response.value else shown;
    var s := RouteVec(server.hooks, AfterHandler);
    hide Chain;
    if !RouteGate(v, h, AfterHandler) {
      EmptyChain(act, now, server.hooks);
      if s != [] { ChainCalls(act, now, server.hooks, s); }
      assert server.calls + [] == server.calls;
    }
  }

  /** One way to miss: a server-wide hook adds the route's first hook while its own phase fires. */
  lemma ArmedMeanwhileHappens(p: Phase, act: Behaviour, v: Visit)
    requires p != HandlerException && p != RequestCompleted
    requires forall shown: nat, h: Hooks :: act(1, shown, h) == Reaction(Pass, [AddHook(true, p, 2)])
    ensures var h := Hooks(Added(NewBus(), p, 1), None);
            GatesRight(h, p) && ServerChain(act, 0, h, p).response.None? && Missed(v, h, p, ServerChain(act, 0, h, p))
  {
    var h := Hooks(Added(NewBus(), p, 1), None);
    var snapshot := [Slot(1, 1)];
    assert ServerVec(h, p) == snapshot;
    assert ReactionOf(act, 0, h, snapshot, 0) == Pass;
    var edits := [AddHook(true, p, 2)];
    assert After(act, 0, h, snapshot, 0) == h;
    assert edits[1..] == [] && EditedAll(h, edits) == Edited(h, edits[0]);
    assert FirstResponder(act, 0, h, snapshot, 0) == 1;
    assert After(act, 0, h, snapshot, 1) == EditedAll(h, edits);
  }

  /**
   The other way: a resource without a table, looked up while no server-wide request_completed hook was there.
   A hook added to it afterwards, by a before_handler hook or by the handler itself, is not run for this
   request's exception, although nothing else stands before it.
   */
  lemma LateTableIsMissed(act: Behaviour, shown: nat, h: Hooks, fn: nat)
    requires h.route.None? && RequestCompleted !in h.server.gates
    requires Gated(h.server, HandlerException) && !ServerGate(h, HandlerException)
    ensures var v, now := VisitOf(h, true), Edited(h, AddHook(true, HandlerException, fn));
            && GatesRight(now, HandlerException) && RouteVec(now, HandlerException) == [Slot(1, fn)]
            && GatedChain(act, shown, v, now, HandlerException).calls == []
            && Ungated(act, shown, now, HandlerException).calls == [HookCall(Slot(1, fn))]
  {
    var now := Edited(h, AddHook(true, HandlerException, fn));
    var s := [Slot(1, fn)];
    ClosedServerGate(act, shown, now, HandlerException);
    assert Vec(NewBus(), HandlerException) == [];
    assert RouteVec(now, HandlerException) == s;
    assert CallsOf(s) == [HookCall(s[0])] && s[..1] == s;
    assert Chain(act, shown, now, s).calls == [HookCall(s[0])];
    assert [] + Chain(act, shown, now, s).calls == Chain(act, shown, now, s).calls;
  }

  // ---- the internal error handler ----------------------------------------------------------

  /** The internal error handler runs at most once, after every server-wide hook, and only if none of them responded. */
  lemma InternalErrorHandlerIsLast(act: Behaviour, shown: nat, visit: Visit, h: Hooks)
    ensures var f := GatedChain(act, shown, visit, h, HandlerException);
            var v := ServerVec(h, HandlerException);
            forall i :: 0 <= i < |f.calls| && f.calls[i].AliasCall? ==>
              && i == |v| && f.calls[..i] == CallsOf(v) && Some(f.calls[i].fn) == h.server.exceptionAlias
              && Chain(act, shown, h, v).response.None?
  {
    var v := ServerVec(h, HandlerException);
    var chain := Chain(act, shown, h, v);
    ChainIsHooks(act, shown, h, v);
    if ServerGate(h, HandlerException) {
      var server := ServerChain(act, shown, h, HandlerException);
      ChainIsHooks(act, shown, server.hooks, RouteVec(server.hooks, HandlerException));
      hide Chain, CallsOf;
      var f := GatedChain(act, shown, visit, h, HandlerException);
      assert server.calls <= f.calls;
      forall i | 0 <= i < |f.calls| && f.calls[i].AliasCall? ensures i == |chain.calls| < |server.calls| {
      }
    } else {
      ChainIsHooks(act, shown, h, RouteVec(h, HandlerException));
      hide Chain;
    }
  }

  lemma ChainIsHooks(act: Behaviour, shown: nat, h: Hooks, snapshot: seq<Slot>)
    ensures forall c <- Chain(act, shown, h, snapshot).calls :: c.HookCall?
    ensures Chain(act, shown, h, snapshot).response.None? ==> Chain(act, shown, h, snapshot).calls == CallsOf(snapshot)
    ensures Chain(act, shown, h, snapshot).calls <= CallsOf(snapshot)
  {
  }

  /** No hook of the snapshot responds when its turn comes. */
  predicate NobodyResponds(act: Behaviour, shown: nat, h: Hooks, s: seq<Slot>)
  {
    forall j :: 0 <= j < |s| ==> !ReactionOf(act, shown, h, s, j).Respond?
  }

  /** The first hook to respond ends a chain and gives its response; without one all of them run. */
  lemma ChainExactly(act: Behaviour, shown: nat, h: Hooks, s: seq<Slot>, k: nat)
    ensures NobodyResponds(act, shown, h, s) ==>
              Chain(act, shown, h, s) == Fired(After(act, shown, h, s, |s|), CallsOf(s), None)
    ensures k < |s| && NobodyRespondsBefore(act, shown, h, s, k) && ReactionOf(act, shown, h, s, k).Respond? ==>
              Chain(act, shown, h, s) == Fired(After(act, shown, h, s, k + 1), CallsOf(s[..k + 1]),
                                               Some(ReactionOf(act, shown, h, s, k).response))
    ensures Chain(act, shown, h, s).response.None? <==> NobodyResponds(act, shown, h, s)
  {
    hide ReactionOf, After, CallsOf;
  }

  predicate NobodyRespondsBefore(act: Behaviour, shown: nat, h: Hooks, s: seq<Slot>, k: nat)
    requires k <= |s|
  {
    forall j :: 0 <= j < k ==> !ReactionOf(act, shown, h, s, j).Respond?
  }

  /**
   The internal error handler runs exactly when it is wired and no server-wide hook responded, whatever the gates of
   the hooks say; when it responds, that is the response, and no hook of the route runs.
   */
  lemma InternalErrorHandlerRuns(act: Behaviour, shown: nat, visit: Visit, h: Hooks)
    ensures var f, v, alias := GatedChain(act, shown, visit, h, HandlerException), ServerVec(h, HandlerException),
                               h.server.exceptionAlias;
            var runs := alias.Some? && NobodyResponds(act, shown, h, v);
            && (runs <==> exists c <- f.calls :: c.AliasCall?)
            && (runs ==>
                  var action := act(alias.value, shown, After(act, shown, h, v, |v|)).action;
                  && CallsOf(v) + [AliasCall(alias.value)] <= f.calls
                  && (action.Respond? ==>
                        f.calls == CallsOf(v) + [AliasCall(alias.value)] && f.response == Some(action.response)))
  {
    hide Chain, ReactionOf, After, CallsOf, NobodyResponds;
    var v := ServerVec(h, HandlerException);
    ChainExactly(act, shown, h, v, 0);
    ChainIsHooks(act, shown, h, v);
    var server := ServerChain(act, shown, h, HandlerException);
    ChainIsHooks(act, shown, server.hooks, RouteVec(server.hooks, HandlerException));
    ChainIsHooks(act, shown, h, RouteVec(h, HandlerException));
    var f := GatedChain(act, shown, visit, h, HandlerException);
    if h.server.exceptionAlias.Some? && NobodyResponds(act, shown, h, v) {
      assert f.calls[|CallsOf(v)|] == AliasCall(h.server.exceptionAlias.value);
    }
  }

  /**
   Server-wide hooks come first. One that responds ends the firing; otherwise the route's hooks follow, if its gate was
   open when the firing began, and theirs is the response.
   */
  lemma ServerComesFirst(act: Behaviour, shown: nat, v: Visit, h: Hooks, p: Phase)
    requires p != HandlerException && ServerGate(h, p)
    ensures var f, s := GatedChain(act, shown, v, h, p), ServerVec(h, p);
            var now := After(act, shown, h, s, |s|);
            var route := RouteVec(now, p);
            && (!NobodyResponds(act, shown, h, s) ==> f == Chain(act, shown, h, s))
            && (NobodyResponds(act, shown, h, s) && !RouteGate(v, h, p) ==> f == Fired(now, CallsOf(s), None))
            && (NobodyResponds(act, shown, h, s) && RouteGate(v, h, p) ==>
                  && f.calls == CallsOf(s) + Chain(act, shown, now, route).calls
                  && f.response == Chain(act, shown, now, route).response)
  {
    hide Chain, ReactionOf, After, CallsOf, NobodyResponds, RouteGate;
    ChainExactly(act, shown, h, ServerVec(h, p), 0);
  }

  /** In after_handler the route's hooks see what the server's put in place, and theirs replaces it in turn. */
  lemma RouteSeesTheReplacement(act: Behaviour, shown: nat, v: Visit, h: Hooks, a: Slot, b: Slot, x: nat, y: nat)
    requires ServerGate(h, AfterHandler) && RouteGate(v, h, AfterHandler)
    requires ServerVec(h, AfterHandler) == [a] && RouteVec(h, AfterHandler) == [b]
    requires act(a.fn, shown, h) == Reaction(Respond(x), []) && act(b.fn, x, h) == Reaction(Respond(y), [])
    ensures GatedAfter(act, shown, v, h) == Fired(h, [HookCall(a), HookCall(b)], Some(y))
  {
    OneResponder(act, shown, h, a, x);
    OneResponder(act, x, h, b, y);
    hide Chain, RouteGate, ServerGate;
  }

  /** A replacement by a server-wide hook stands when no hook of the route responds to it. */
  lemma ReplacementStands(act: Behaviour, shown: nat, v: Visit, h: Hooks, k: nat)
    requires ServerGate(h, AfterHandler) && k < |ServerVec(h, AfterHandler)|
    requires NobodyRespondsBefore(act, shown, h, ServerVec(h, AfterHandler), k)
    requires ReactionOf(act, shown, h, ServerVec(h, AfterHandler), k).Respond?
    ensures var f, s := GatedAfter(act, shown, v, h), ServerVec(h, AfterHandler);
            var x, now := ReactionOf(act, shown, h, s, k).response, After(act, shown, h, s, k + 1);
            var route := if RouteGate(v, h, AfterHandler) then RouteVec(now, AfterHandler) else [];
            NobodyResponds(act, x, now, route) ==>
              f.response == Some(x) && f.calls == CallsOf(s[..k + 1]) + CallsOf(route)
  {
    hide Chain, RouteGate, ServerGate, ReactionOf, NobodyRespondsBefore, NobodyResponds, After;
    var s := ServerVec(h, AfterHandler);
    ChainExactly(act, shown, h, s, k);
    var now := After(act, shown, h, s, k + 1);
    ChainExactly(act, ReactionOf(act, shown, h, s, k).response, now, RouteVec(now, AfterHandler), 0);
    assert CallsOf(s[..k + 1]) + [] == CallsOf(s[..k + 1]);
  }

  lemma OneResponder(act: Behaviour, shown: nat, h: Hooks, a: Slot, x: nat)
    requires act(a.fn, shown, h) == Reaction(Respond(x), [])
    ensures Chain(act, shown, h, [a]) == Fired(h, [HookCall(a)], Some(x))
  {
    ChainExactly(act, shown, h, [a], 0);
    assert After(act, shown, h, [a], 0) == h && After(act, shown, h, [a], 1) == EditedAll(h, []);
    assert [a][..1] == [a] && CallsOf([a]) == [HookCall(a)];
  }

  // ---- observing phases ----------------------------------------------------------------------

  /** The server's response_sent hooks, then the access log. */
  function ObserveServer(act: Behaviour, shown: nat, h: Hooks, p: Phase): (f: Fired)
  {
    var f := Observe(act, shown, h, ServerVec(h, p));
    if p == ResponseSent then Aliased(act, shown, f, h.server.accessAlias).(response := None) else f
  }

  function UngatedObserve(act: Behaviour, shown: nat, v: Visit, h: Hooks, p: Phase): (f: Fired)
  {
    var server := ObserveServer(act, shown, h, p);
    Join(server, Observe(act, shown, server.hooks, RouteHooks(v, server.hooks, p)))
  }

  /**
   response_sent fires the server's side when either gate is open or the access log is wired; request_completed by
   gate.
   */
  function GatedObserve(act: Behaviour, shown: nat, v: Visit, h: Hooks, p: Phase): (f: Fired)
  {
    var wired := p == ResponseSent && (h.server.accessAlias.Some? || RouteGate(v, h, p));
    var server := if ServerGate(h, p) || wired then ObserveServer(act, shown, h, p) else Fired(h, [], None);
    if !RouteGate(v, h, p) then server else Join(server, Observe(act, shown, server.hooks, RouteVec(server.hooks, p)))
  }

  lemma EmptyObserve(act: Behaviour, shown: nat, h: Hooks)
    ensures Observe(act, shown, h, []) == Fired(h, [], None)
  {
  }

  lemma ObserveGatesAreInvisible(act: Behaviour, shown: nat, v: Visit, h: Hooks, p: Phase)
    requires GatesRight(h, p) && p != HandlerException
    ensures GatedObserve(act, shown, v, h, p) == UngatedObserve(act, shown, v, h, p)
       <==> !Missed(v, h, p, ObserveServer(act, shown, h, p))
  {
    var server := ObserveServer(act, shown, h, p);
    EmptyObserve(act, shown, h);
    EmptyObserve(act, shown, server.hooks);
    assert server.calls + [] == server.calls;
  }

  /** What the server's side of an observing phase calls. */
  function Served(h: Hooks, p: Phase): (cs: seq<Call>)
  {
    CallsOf(ServerVec(h, p))
    + if p == ResponseSent && h.server.accessAlias.Some? then [AliasCall(h.server.accessAlias.value)] else []
  }

  lemma ServerObserved(act: Behaviour, shown: nat, h: Hooks, p: Phase)
    ensures ObserveServer(act, shown, h, p).calls == Served(h, p) && ObserveServer(act, shown, h, p).response == None
    ensures Served(h, p) == [] ==> ObserveServer(act, shown, h, p) == Fired(h, [], None)
  {
    hide CallsOf, EditedAll;
    assert CallsOf(ServerVec(h, p)) + [] == CallsOf(ServerVec(h, p));
  }

  /**
   Every server-wide observer runs, in order; after them the access log, exactly when it is wired and the phase is
   response_sent; then the route's, if its gate was open. Nobody's response counts.
   */
  lemma ObserversRun(act: Behaviour, shown: nat, v: Visit, h: Hooks, p: Phase)
    requires GatesRight(h, p) && (p == ResponseSent || p == RequestCompleted)
    ensures var f, server := GatedObserve(act, shown, v, h, p), ObserveServer(act, shown, h, p);
            && f.response == None
            && f.calls == Served(h, p) + if RouteGate(v, h, p) then CallsOf(RouteVec(server.hooks, p)) else []
  {
    ServerObserved(act, shown, h, p);
    if !ServerGate(h, p) { NothingServed(v, h, p); }
    hide ObserveServer, Served, CallsOf, After, RouteGate, ServerGate;
    assert Served(h, p) + [] == Served(h, p);
    assert [] + CallsOf(RouteVec(h, p)) == CallsOf(RouteVec(h, p));
  }

  lemma NothingServed(v: Visit, h: Hooks, p: Phase)
    requires GatesRight(h, p) && !ServerGate(h, p)
    ensures Served(h, p) == [] || (p == ResponseSent && h.server.accessAlias.Some?)
  {
  }

  /** A request_completed hook on a table that came after the lookup is missed as well. */
  lemma LateTableMissesCompletion(act: Behaviour, shown: nat, h: Hooks, fn: nat)
    requires h.route.None? && RequestCompleted !in h.server.gates && Gated(h.server, RequestCompleted)
    ensures var v, now := VisitOf(h, true), Edited(h, AddHook(true, RequestCompleted, fn));
            && GatedObserve(act, shown, v, now, RequestCompleted).calls == []
            && UngatedObserve(act, shown, v, now, RequestCompleted).calls == [HookCall(Slot(1, fn))]
  {
    var v, now := VisitOf(h, true), Edited(h, AddHook(true, RequestCompleted, fn));
    var s := [Slot(1, fn)];
    assert Vec(NewBus(), RequestCompleted) == [];
    assert RouteVec(now, RequestCompleted) == s;
    EmptyObserve(act, shown, now);
    assert ObserveServer(act, shown, now, RequestCompleted) == Fired(now, [], None);
    assert [] + CallsOf(s) == [HookCall(s[0])];
  }

  // ---- hooks cannot break the bus they run on ------------------------------------------------

  ghost predicate HooksSound(h: Hooks) { Sound(h.server) && Sound(RouteBus(h)) }

  lemma EditedSound(h: Hooks, e: Edit)
    requires HooksSound(h)
    ensures HooksSound(Edited(h, e))
  {
    hide Sound, Added, Removed, NewBus;
    match e
    case AddHook(onRoute, p, fn) => AddedSound(if onRoute then RouteBus(h) else h.server, p, fn);
    case RemoveHook(onRoute, p, id) => RemovedSound(if onRoute then RouteBus(h) else h.server, p, id);
  }

  lemma {:induction false} EditedAllSound(h: Hooks, es: seq<Edit>)
    requires HooksSound(h)
    ensures HooksSound(EditedAll(h, es))
    decreases |es|
  {
    if es != [] {
      hide HooksSound, Edited;
      EditedSound(h, es[0]);
      EditedAllSound(Edited(h, es[0]), es[1..]);
    }
  }

  lemma {:induction false} FiringKeepsSound(act: Behaviour, shown: nat, h: Hooks, snapshot: seq<Slot>, i: nat)
    requires HooksSound(h) && i <= |snapshot|
    ensures HooksSound(After(act, shown, h, snapshot, i))
  {
    if i > 0 {
      hide HooksSound, EditedAll;
      FiringKeepsSound(act, shown, h, snapshot, i - 1);
      var before := After(act, shown, h, snapshot, i - 1);
      EditedAllSound(before, act(snapshot[i - 1].fn, shown, before).edits);
    }
  }

  // ---- the loops -----------------------------------------------------------------------------

  class HookRunner {
    const act: Behaviour
    var hooks: Hooks

    constructor (act: Behaviour, hooks: Hooks)
      ensures this.act == act && this.hooks == hooks
    {
      this.act, this.hooks := act, hooks;
    }

    /** fire_short_circuit_hooks_for_phase. */
    method RunShortCircuit(snapshot: seq<Slot>, shown: nat) returns (calls: seq<Call>, response: Option<nat>)
      modifies this
      ensures Fired(hooks, calls, response) == Chain(act, shown, old(hooks), snapshot)
    {
      calls, response := [], None;
      var i := 0;
      while i < |snapshot|
        invariant i <= |snapshot| && hooks == After(act, shown, old(hooks), snapshot, i)
        invariant calls == CallsOf(snapshot[..i])
        invariant FirstResponder(act, shown, old(hooks), snapshot, 0)
                   == FirstResponder(act, shown, old(hooks), snapshot, i)
      {
        var reaction := act(snapshot[i].fn, shown, hooks);
        hooks := EditedAll(hooks, reaction.edits);
        calls := calls + [HookCall(snapshot[i])];
        assert snapshot[..i + 1] == snapshot[..i] + [snapshot[i]];
        if reaction.action.Respond? { return calls, Some(reaction.action.response); }
        i := i + 1;
      }
      assert snapshot[..i] == snapshot;
    }

    /** fire_hooks_for_phase. */
    method RunObserving(snapshot: seq<Slot>, shown: nat) returns (calls: seq<Call>)
      modifies this
      ensures Fired(hooks, calls, None) == Observe(act, shown, old(hooks), snapshot)
    {
      calls := [];
      var i := 0;
      while i < |snapshot|
        invariant i <= |snapshot| && hooks == After(act, shown, old(hooks), snapshot, i)
                   && calls == CallsOf(snapshot[..i])
      {
        var reaction := act(snapshot[i].fn, shown, hooks);
        hooks := EditedAll(hooks, reaction.edits);
        calls := calls + [HookCall(snapshot[i])];
        assert snapshot[..i + 1] == snapshot[..i] + [snapshot[i]];
        i := i + 1;
      }
      assert snapshot[..i] == snapshot;
    }

    /** The server's chain for a short-circuiting phase; handler_exception ends in the alias slot. */
    method FireServer(p: Phase, shown: nat) returns (calls: seq<Call>, response: Option<nat>)
      modifies this
      ensures Fired(hooks, calls, response) == ServerChain(act, shown, old(hooks), p)
    {
      hide Chain, EditedAll;
      var alias := hooks.server.exceptionAlias;
      calls, response := RunShortCircuit(ServerVec(hooks, p), shown);
      if p == HandlerException && response.None? && alias.Some? {
        var reaction := act(alias.value, shown, hooks);
        hooks := EditedAll(hooks, reaction.edits);
        calls := calls + [AliasCall(alias.value)];
        if reaction.action.Respond? { response := Some(reaction.action.response); }
      }
    }

    /** fire_before_handler_gated and the chains of handle_dispatch_exception. */
    method FireGated(p: Phase, shown: nat, v: Visit) returns (calls: seq<Call>, response: Option<nat>)
      modifies this
      ensures Fired(hooks, calls, response) == GatedChain(act, shown, v, old(hooks), p)
    {
      hide Chain, ServerChain;
      var serverGate, routeGate := ServerGate(hooks, p), RouteGate(v, hooks, p);
      calls, response := [], None;
      if serverGate {
        calls, response := FireServer(p, shown);
        if response.Some? { return; }
      }
      if routeGate {
        var more, answer := RunShortCircuit(RouteVec(hooks, p), shown);
        calls, response := calls + more, answer;
      }
    }

    /** fire_after_handler_gated, on a connection that has a response. */
    method FireAfterHandlerGated(current: nat, v: Visit) returns (calls: seq<Call>, replaced: Option<nat>)
      modifies this
      ensures Fired(hooks, calls, replaced) == GatedAfter(act, current, v, old(hooks))
    {
      hide Chain;
      var serverGate, routeGate := ServerGate(hooks, AfterHandler), RouteGate(v, hooks, AfterHandler);
      calls, replaced := [], None;
      var shown := current;
      if serverGate {
        calls, replaced := RunShortCircuit(ServerVec(hooks, AfterHandler), shown);
        if replaced.Some? { shown := replaced.value; }
      }
      if routeGate {
        var more, answer := RunShortCircuit(RouteVec(hooks, AfterHandler), shown);
        calls := calls + more;
        if answer.Some? { replaced := answer; }
      }
    }

    /** fire_response_sent_gated and fire_request_completed_gated. */
    method FireObserverGated(p: Phase, shown: nat, v: Visit) returns (calls: seq<Call>)
      requires p == ResponseSent || p == RequestCompleted
      modifies this
      ensures Fired(hooks, calls, None) == GatedObserve(act, shown, v, old(hooks), p)
    {
      hide Observe, EditedAll;
      var serverGate, routeGate, alias := ServerGate(hooks, p), RouteGate(v, hooks, p), hooks.server.accessAlias;
      calls := [];
      if serverGate || (p == ResponseSent && (alias.Some? || routeGate)) {
        calls := RunObserving(ServerVec(hooks, p), shown);
        if p == ResponseSent && alias.Some? {
          hooks := EditedAll(hooks, act(alias.value, shown, hooks).edits);
          calls := calls + [AliasCall(alias.value)];
        }
      }
      if routeGate {
        var more := RunObserving(RouteVec(hooks, p), shown);
        calls := calls + more;
      }
    }
  }
}
