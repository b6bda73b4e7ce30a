/**
 One request from its first callback to its response. What hooks, handlers, error pages, the
 route table and the backend do is the environment's choice at every step; the trace records
 what was fired, called and queued, in order.
 */
module RequestLifecycle {
  import opened Wrappers
  import opened HookBus
  import opened Materializer

  // ---- methods and allow masks -----------------------------------------------------------

  /** The number of methods, and the value that stands for an unrecognised one. */
  const METHOD_COUNT: nat := 9

  /** valid_method_mask, as the set of its bits. */
  function ValidMask(): (m: set<nat>) { {0, 1, 2, 3, 4, 5, 6, 7, 8} }

  /** to_string: the wire token of each method, in the order of the enumeration. */
  function WireToken(verb: nat): (token: string)
  {
    match verb
    case 0 => "GET"
    case 1 => "HEAD"
    case 2 => "POST"
    case 3 => "PUT"
    case 4 => "DELETE"
    case 5 => "CONNECT"
    case 6 => "OPTIONS"
    case 7 => "TRACE"
    case 8 => "PATCH"
    case _ => ""
  }

  predicate TakesBody(wire: string) { wire == "POST" || wire == "PUT" || wire == "DELETE" || wire == "PATCH" }

  /** The method is the one whose token was sent, if any, with its own callback; only four take a body. */
  ghost predicate Resolved(wire: string, verb: nat, callback: Option<nat>, hasBody: bool)
  {
    && (forall v :: 0 <= v < METHOD_COUNT ==> (verb == v <==> WireToken(v) == wire))
    && (verb in ValidMask() || verb == METHOD_COUNT)
    && callback == (if verb == METHOD_COUNT then None else Some(verb))
    && (hasBody <==> TakesBody(wire))
  }

  datatype MethodRow = MethodRow(wire: string, callback: nat, verb: nat, hasBody: bool)

  function MethodTable(): (rows: seq<MethodRow>)
  {
    [MethodRow("GET", 0, 0, false), MethodRow("POST", 2, 2, true), MethodRow("PUT", 3, 3, true),
     MethodRow("DELETE", 4, 4, true), MethodRow("PATCH", 8, 8, true), MethodRow("HEAD", 1, 1, false),
     MethodRow("CONNECT", 5, 5, false), MethodRow("TRACE", 7, 7, false), MethodRow("OPTIONS", 6, 6, false)]
  }

  lemma TokensDiffer(v: nat, w: nat)
    requires v < w < METHOD_COUNT
    ensures WireToken(v) != WireToken(w)
  {
    assert WireToken(v)[0] != WireToken(w)[0] || |WireToken(v)| != |WireToken(w)|;
  }

  /** Each method is resolved from its own token and from no other. */
  lemma TokenResolves(v: nat, hasBody: bool)
    requires v < METHOD_COUNT && (hasBody <==> v in {2, 3, 4, 8})
    ensures Resolved(WireToken(v), v, Some(v), hasBody)
  {
    forall w | 0 <= w < METHOD_COUNT ensures v == w <==> WireToken(w) == WireToken(v) {
      if v < w { TokensDiffer(v, w); } else if w < v { TokensDiffer(w, v); }
    }
    assert WireToken(2) == "POST" && WireToken(3) == "PUT" && WireToken(4) == "DELETE" && WireToken(8) == "PATCH";
  }

  /** Every method has its row, and nothing else has. */
  lemma RowsByToken(i: nat)
    requires i < |MethodTable()|
    ensures var row := MethodTable()[i];
            row.verb < METHOD_COUNT && row.callback == row.verb && row.wire == WireToken(row.verb)
            && (row.hasBody <==> row.verb in {2, 3, 4, 8})
  {
  }

  lemma TokenHasRow(v: nat)
    requires v < METHOD_COUNT
    ensures exists i :: 0 <= i < |MethodTable()| && MethodTable()[i].wire == WireToken(v)
  {
    var i := if v == 0 then 0 else if v == 1 then 5 else if v <= 4 then v - 1
             else if v == 5 then 6 else if v == 6 then 8 else if v == 7 then 7 else 4;
    assert MethodTable()[i].wire == WireToken(v);
  }

  lemma NoRowResolves(wire: string)
    requires forall i :: 0 <= i < |MethodTable()| ==> MethodTable()[i].wire != wire
    ensures Resolved(wire, METHOD_COUNT, None, false)
  {
    hide MethodTable, WireToken;
    forall v | 0 <= v < METHOD_COUNT ensures WireToken(v) != wire { TokenHasRow(v); }
    assert WireToken(2) != wire && WireToken(3) != wire && WireToken(4) != wire && WireToken(8) != wire;
    BodyTokens();
  }

  lemma BodyTokens()
    ensures WireToken(2) == "POST" && WireToken(3) == "PUT" && WireToken(4) == "DELETE" && WireToken(8) == "PATCH"
  {
  }

  /** resolve_method_callback: the callback stays null exactly for methods outside the mask of valid ones. */
  method ResolveMethod(wire: string) returns (verb: nat, callback: Option<nat>, hasBody: bool)
    ensures Resolved(wire, verb, callback, hasBody)
  {
    hide MethodTable, WireToken, Resolved;
    verb, callback, hasBody := METHOD_COUNT, None, false;
    var rows, i := MethodTable(), 0;
    while i < |rows|
      invariant i <= |rows| && verb == METHOD_COUNT && callback.None? && !hasBody
      invariant forall j :: 0 <= j < i ==> rows[j].wire != wire
    {
      if rows[i].wire == wire {
        RowsByToken(i);
        TokenResolves(rows[i].verb, rows[i].hasBody);
        return rows[i].verb, Some(rows[i].callback), rows[i].hasBody;
      }
      i := i + 1;
    }
    NoRowResolves(wire);
  }

  /** A method as set_allowing takes it, the sentinel included. */
  type Verb = v: nat | v <= METHOD_COUNT

  datatype MaskEdit = Set(verb: Verb, allow: bool) | SetAll | ClearAll

  /** Whether an edit says anything about a method. */
  predicate Touches(e: MaskEdit, verb: nat) { !e.Set? || (e.verb == verb && verb != METHOD_COUNT) }

  /** A method is allowed by the last edit that says anything about it, and at first. */
  predicate Allows(edits: seq<MaskEdit>, verb: nat)
  {
    if edits == [] then true
    else
      var e := edits[|edits| - 1];
      if Touches(e, verb) then e.SetAll? || (e.Set? && e.allow) else Allows(edits[..|edits| - 1], verb)
  }

  /** The mask a resource hands out after some edits; no edit can put a bit outside the valid ones into it. */
  function Mask(edits: seq<MaskEdit>): (m: set<nat>)
    ensures m <= ValidMask()
  {
    set v | v in ValidMask() && Allows(edits, v)
  }

  /** What each edit does to the mask. */
  lemma MaskAfter(edits: seq<MaskEdit>, verb: Verb, allow: bool)
    ensures Mask([]) == {0, 1, 2, 3, 4, 5, 6, 7, 8} && Mask(edits + [SetAll]) == {0, 1, 2, 3, 4, 5, 6, 7, 8}
    ensures Mask(edits + [ClearAll]) == {}
    ensures Mask(edits + [Set(verb, allow)])
         == if verb == METHOD_COUNT then Mask(edits) else if allow then Mask(edits) + {verb} else Mask(edits) - {verb}
  {
    assert forall e: MaskEdit :: (edits + [e])[..|edits|] == edits && (edits + [e])[|edits|] == e;
  }

  /** A resource's allow mask and the edits made to it so far. */
  class AllowMask {
    var allowed: set<nat>
    ghost var edits: seq<MaskEdit>

    ghost predicate Valid()
      reads this
    {
      allowed == Mask(edits)
    }

    constructor ()
      ensures Valid() && edits == []
    {
      allowed, edits := ValidMask(), [];
    }

    method SetAllowing(verb: Verb, allow: bool)
      requires Valid()
      modifies this
      ensures Valid() && edits == old(edits) + [Set(verb, allow)]
    {
      edits := edits + [Set(verb, allow)];
      assert edits[..|edits| - 1] == old(edits);
      if verb == METHOD_COUNT { return; }
      if allow { allowed := allowed + {verb}; } else { allowed := allowed - {verb}; }
    }

    method AllowAll()
      modifies this
      ensures Valid() && edits == old(edits) + [SetAll]
    {
      allowed, edits := ValidMask(), edits + [SetAll];
    }

    method DisallowAll()
      modifies this
      ensures Valid() && edits == old(edits) + [ClearAll]
    {
      allowed, edits := {}, edits + [ClearAll];
    }

    /** Any run of edits, through the three mutators. */
    method Run(run: seq<MaskEdit>)
      requires Valid()
      modifies this
      ensures Valid() && edits == old(edits) + run
    {
      for i := 0 to |run|
        invariant Valid() && edits == old(edits) + run[..i]
      {
        match run[i]
        case Set(verb, allow) => SetAllowing(verb, allow);
        case SetAll => AllowAll();
        case ClearAll => DisallowAll();
      }
    }

    method IsAllowed(verb: nat) returns (yes: bool)
      requires Valid()
      ensures yes <==> verb in ValidMask() && Allows(edits, verb)
    {
      yes := verb in allowed;
    }
  }

  // ---- traces ----------------------------------------------------------------------------

  datatype Event =
    | Fired(phase: Phase, responded: bool)
    | Looked(found: Option<Resource>)
    | Handler(verb: nat, callback: Option<nat>)
    | UpgraderAnswered(status: nat)
    | Queued(response: Response)
    | Refused
    | Escaped

  /** Where an event belongs in the life of a request. */
  function Rank(e: Event): (r: nat)
  {
    match e
    case Fired(RequestReceived, _) => 1
    case Fired(BodyChunk, _) => 2
    case Looked(_) => 3
    case Fired(RouteResolved, _) => 4
    case Fired(BeforeHandler, _) => 5
    case Handler(_, _) => 6
    case Fired(HandlerException, _) => 7
    case Fired(AfterHandler, _) => 8
    case UpgraderAnswered(_) => 9
    case Queued(_) => 9
    case Refused => 9
    case Escaped => 9
    case Fired(ResponseSent, _) => 10
    case _ => 11
  }

  /** How a request ends: the upgrader's own response, the slot's, none, or an exception out of the callback. */
  predicate IsOutcome(e: Event) { e.UpgraderAnswered? || e.Queued? || e.Refused? || e.Escaped? }

  /** Everything at most once and in phase order, body chunks apart; so at most one outcome. */
  ghost predicate Ordered(trace: seq<Event>)
  {
    forall i, j :: 0 <= i < j < |trace| ==>
      Rank(trace[i]) < Rank(trace[j]) || (Rank(trace[i]) == 2 && Rank(trace[j]) == 2)
  }

  ghost predicate Below(trace: seq<Event>, rank: nat) { forall e <- trace :: Rank(e) < rank }

  ghost predicate Without(trace: seq<Event>, from: nat, to: nat) { forall e <- trace :: !(from <= Rank(e) <= to) }

  /** A hook responded before the handler's turn: before routing, or before the handler. */
  ghost predicate CutEarly(trace: seq<Event>)
  {
    Fired(RequestReceived, true) in trace || Fired(BodyChunk, true) in trace
  }

  ghost predicate ShortCircuited(trace: seq<Event>) { CutEarly(trace) || Fired(BeforeHandler, true) in trace }

  /** The handler ran for a route that was found and allows the method, through a callback that is not null. */
  ghost predicate Entitled(trace: seq<Event>, e: Event)
    requires e.Handler?
  {
    && e.verb in ValidMask() && e.callback == Some(e.verb)
    && exists res: Resource :: Looked(Some(res)) in trace && e.verb in Mask(res.edits)
  }

  /**
   Who may run: no routing after an early cut, no handler and no after_handler after any cut, no handler without a
   route.
   */
  ghost predicate Rules(trace: seq<Event>)
  {
    && (forall e <- trace :: e.Handler? ==> Entitled(trace, e))
    && (CutEarly(trace) ==> Without(trace, 3, 8))
    && (ShortCircuited(trace) ==> Without(trace, 6, 8))
    && (Looked(None) in trace ==> Without(trace, 5, 7))
  }

  ghost predicate Good(trace: seq<Event>) { Ordered(trace) && Rules(trace) }

  lemma Extend(trace: seq<Event>, e: Event)
    requires Ordered(trace) && (Below(trace, Rank(e)) || (Rank(e) == 2 && Below(trace, 3)))
    ensures Ordered(trace + [e]) && Below(trace + [e], Rank(e) + 1)
  {
    var t := trace + [e];
    forall i, j | 0 <= i < j < |t| ensures Rank(t[i]) < Rank(t[j]) || (Rank(t[i]) == 2 && Rank(t[j]) == 2) {
      if j == |trace| { assert t[i] in trace; }
    }
  }

  /** When an event may be added. */
  ghost predicate May(trace: seq<Event>, e: Event)
  {
    && (Below(trace, Rank(e)) || (Rank(e) == 2 && Below(trace, 3)))
    && (3 <= Rank(e) <= 8 ==> !CutEarly(trace))
    && (6 <= Rank(e) <= 8 ==> !ShortCircuited(trace))
    && (5 <= Rank(e) <= 7 ==> Looked(None) !in trace)
    && (e.Handler? ==> Entitled(trace, e))
  }

  lemma GrowEntitled(trace: seq<Event>, e: Event)
    requires Rules(trace) && May(trace, e)
    ensures forall h <- trace + [e] :: h.Handler? ==> Entitled(trace + [e], h)
  {
    var t := trace + [e];
    forall h <- t | h.Handler? ensures Entitled(t, h) {
      assert Entitled(trace, h);
      var res: Resource :| Looked(Some(res)) in trace && h.verb in Mask(res.edits);
      assert Looked(Some(res)) in t;
    }
  }

  lemma GrowRules(trace: seq<Event>, e: Event)
    requires Rules(trace) && May(trace, e)
    ensures Rules(trace + [e])
  {
    var t := trace + [e];
    GrowEntitled(trace, e);
    assert forall d :: d in t <==> d in trace || d == e;
    assert Rank(Looked(None)) == 3 && Rank(Fired(BeforeHandler, true)) == 5;
    assert Rank(Fired(RequestReceived, true)) == 1 && Rank(Fired(BodyChunk, true)) == 2;
    hide Entitled, Rank;
  }

  lemma Grow(trace: seq<Event>, e: Event)
    requires Good(trace) && May(trace, e)
    ensures Good(trace + [e]) && Below(trace + [e], Rank(e) + 1)
  {
    hide Rules, Ordered, Rank;
    GrowRules(trace, e);
    Extend(trace, e);
  }

  // ---- the environment -------------------------------------------------------------------

  datatype Resource = Resource(edits: seq<MaskEdit>)

  datatype HandlerResult = Returned(response: Response, sentinel: bool) | Threw

  /** What the upgrader finds: the Upgrade header, a well-formed handshake, a handler at the path, a response made. */
  datatype Upgrade = Upgrade(asked: bool, handshake: bool, handler: bool, made: bool)

  /**
   The status the upgrader queues by itself, if it answers: a malformed handshake is refused before any handler is
   looked for.
   */
  function UpgradeStatus(u: Upgrade): (status: Option<nat>)
  {
    if !u.asked then None
    else if !u.handshake then Some(400)
    else if u.handler && u.made then Some(101)
    else None
  }

  /**
   Only a request that asks for an upgrade is answered: 400 when its handshake is malformed, else 101 or not at all.
   */
  lemma UpgradeAnswers(u: Upgrade)
    ensures UpgradeStatus(u) == Some(400) <==> u.asked && !u.handshake
    ensures UpgradeStatus(u) == Some(101) <==> u.asked && u.handshake && u.handler && u.made
    ensures UpgradeStatus(u).Some? ==> UpgradeStatus(u).value == 400 || UpgradeStatus(u).value == 101
  {
  }

  /** Every choice is indexed by the step at which it is asked for. */
  datatype Env = Env(
    gate: (nat, Phase) -> bool,
    fire: (nat, Phase) -> Option<Response>,
    upgrade: nat -> Upgrade,
    lookup: nat -> Option<Resource>,
    handler: nat -> HandlerResult,
    backend: Backend)

  /** A filled slot, and the step at which it is. */
  datatype Held = Held(response: Response, at: nat)

  function PageSlot(env: Env, at: nat, page: Page): (s: Held) { Held(env.backend.page(at, page), at + 1) }

  /** A hook phase that may respond: what it responds, and the step after it. */
  function Reply(env: Env, at: nat, phase: Phase): (r: Option<Response>)
  {
    if env.gate(at, phase) then env.fire(at, phase) else None
  }

  function Past(env: Env, at: nat, phase: Phase): (next: nat) { if env.gate(at, phase) then at + 1 else at }

  /**
   After a throwing handler: the chain's response, the empty 500 when the chain has none, or the error page without a
   chain.
   */
  function ExceptionSlot(env: Env, at: nat): (s: Held)
  {
    var r, next := Reply(env, at, HandlerException), Past(env, at, HandlerException);
    if r.Some? then Held(r.value, next)
    else PageSlot(env, next, if env.gate(at, HandlerException) then EmptyErrorPage else ErrorPage)
  }

  /** What a found route leaves in the slot. */
  function HandlerSlot(env: Env, at: nat, verb: nat, res: Resource): (s: Held)
  {
    if verb in Mask(res.edits) then
      match env.handler(at + 1)
      case Returned(r, sentinel) => if sentinel then PageSlot(env, at + 1, ErrorPage) else Held(r, at + 1)
      case Threw => ExceptionSlot(env, at + 1)
    else if env.backend.pageThrows(at) then ExceptionSlot(env, at)
    else PageSlot(env, at, MethodPage)
  }

  function AfterSlot(env: Env, s: Held): (s': Held)
  {
    var r := Reply(env, s.at, AfterHandler);
    Held(if r.Some? then r.value else s.response, Past(env, s.at, AfterHandler))
  }

  /** What a request that was not cut short is answered with; nothing when the 404 page throws. */
  function Answered(env: Env, at: nat, verb: nat): (s: Option<Held>)
  {
    var routed := Past(env, at + 1, RouteResolved);
    match env.lookup(at)
    case None =>
      if env.backend.pageThrows(routed) then None else Some(AfterSlot(env, PageSlot(env, routed, NotFoundPage)))
    case Some(res) =>
      var r, next := Reply(env, routed, BeforeHandler), Past(env, routed, BeforeHandler);
      if r.Some? then Some(Held(r.value, next)) else Some(AfterSlot(env, HandlerSlot(env, next, verb, res)))
  }

  // What is noted on the way to that answer.

  function FiredAt(env: Env, at: nat, phase: Phase): (es: seq<Event>)
  {
    if env.gate(at, phase) then [Fired(phase, env.fire(at, phase).Some?)] else []
  }

  /** A phase nobody can respond in. */
  function ObservedAt(env: Env, at: nat, phase: Phase): (es: seq<Event>)
  {
    if env.gate(at, phase) then [Fired(phase, false)] else []
  }

  function HandlerEvents(env: Env, at: nat, verb: nat, callback: Option<nat>, res: Resource): (es: seq<Event>)
  {
    if verb !in Mask(res.edits) then if env.backend.pageThrows(at) then FiredAt(env, at, HandlerException) else []
    else
      [Handler(verb, callback)] + if env.handler(at + 1).Threw? then FiredAt(env, at + 1, HandlerException) else []
  }

  function AnswerEvents(env: Env, at: nat, verb: nat, callback: Option<nat>): (es: seq<Event>)
  {
    var routed := Past(env, at + 1, RouteResolved);
    [Looked(env.lookup(at))] + ObservedAt(env, at + 1, RouteResolved)
    + match env.lookup(at)
      case None => if env.backend.pageThrows(routed) then [] else FiredAt(env, routed + 1, AfterHandler)
      case Some(res) =>
        var next := Past(env, routed, BeforeHandler);
        FiredAt(env, routed, BeforeHandler)
        + if Reply(env, routed, BeforeHandler).Some? then []
          else HandlerEvents(env, next, verb, callback, res)
               + FiredAt(env, HandlerSlot(env, next, verb, res).at, AfterHandler)
  }

  /** Hooks that pass, gated or not, never come between a handler and its client. */
  lemma PassingHooksChangeNothing(env: Env, at: nat, verb: nat, r: Response)
    requires env.lookup(at).Some? && verb in Mask(env.lookup(at).value.edits)
    requires forall i: nat, p: Phase :: env.fire(i, p).None?
    requires forall i: nat :: env.handler(i) == Returned(r, false)
    ensures Answered(env, at, verb).Some? && Answered(env, at, verb).value.response == r
  {
  }

  /**
   Without a response from any hook: the 404 page for a missing route, the 405 page for a method that is not allowed,
   the handler's own response, the error page in place of a default one, and for a handler that throws the error page
   or, when a chain was asked in vain, the empty 500.
   */
  lemma AnswersByPage(env: Env, at: nat, verb: nat)
    requires forall i: nat, p: Phase :: env.fire(i, p).None?
    ensures var b := env.backend;
            var routed := if env.gate(at + 1, RouteResolved) then at + 2 else at + 1;
            var asked := if env.gate(routed, BeforeHandler) then routed + 1 else routed;
            var slot := Answered(env, at, verb);
            match env.lookup(at)
            case None => if b.pageThrows(routed) then slot.None? else SlotHas(slot, b.page(routed, NotFoundPage))
            case Some(res) =>
              if verb !in Mask(res.edits) then
                SlotHas(slot, if !b.pageThrows(asked) then b.page(asked, MethodPage)
                              else if env.gate(asked, HandlerException) then b.page(asked + 1, EmptyErrorPage)
                              else b.page(asked, ErrorPage))
              else
                match env.handler(asked + 1)
                case Returned(r, sentinel) => SlotHas(slot, if sentinel then b.page(asked + 1, ErrorPage) else r)
                case Threw =>
                  SlotHas(slot, if env.gate(asked + 1, HandlerException) then b.page(asked + 2, EmptyErrorPage)
                                else b.page(asked + 1, ErrorPage))
  {
    hide Mask;
  }

  predicate SlotHas(s: Option<Held>, r: Response) { s.Some? && s.value.response == r }

  /**
   A response from before_handler is the answer, and no later phase is asked; one from handler_exception stands in for
   a handler that threw; one from after_handler replaces whatever there was.
   */
  lemma AnswersByHook(env: Env, at: nat, verb: nat)
    ensures var routed := if env.gate(at + 1, RouteResolved) then at + 2 else at + 1;
            var asked := if env.gate(routed, BeforeHandler) then routed + 1 else routed;
            env.lookup(at).Some? && env.gate(routed, BeforeHandler) && env.fire(routed, BeforeHandler).Some? ==>
              Answered(env, at, verb) == Some(Held(env.fire(routed, BeforeHandler).value, asked))
    ensures forall s: Held :: env.gate(s.at, AfterHandler) && env.fire(s.at, AfterHandler).Some? ==>
              AfterSlot(env, s) == Held(env.fire(s.at, AfterHandler).value, s.at + 1)
    ensures forall i: nat :: env.gate(i, HandlerException) && env.fire(i, HandlerException).Some? ==>
              ExceptionSlot(env, i) == Held(env.fire(i, HandlerException).value, i + 1)
  {
    hide HandlerSlot;
  }

  /** The outcome in a trace is the one the attempts lead to, and every attempt was made. */
  ghost predicate Delivered(b: Backend, at: nat, slot: Response, trace: seq<Event>, tries: seq<Try>)
  {
    && Chain(b, at, slot, tries) && After(tries).None?
    && (if Last(tries).result == Some(Raw) then Queued(Last(tries).response) else Refused) in trace
    && (Refused in trace <==> Hopeless(b, at))
  }

  /** What is noted when a slot is turned into a response; response_sent comes only after one that was queued. */
  function DeliveryEvents(env: Env, at: nat, tries: seq<Try>): (es: seq<Event>)
    requires tries != []
  {
    if Last(tries).result == Some(Raw) then
      [Queued(Last(tries).response)] + ObservedAt(env, at + |tries| + 1, ResponseSent)
    else [Refused]
  }

  /** The slot a complete request comes to: the response that cut it short, or the answer to it. */
  function SlotFor(env: Env, at: nat, verb: nat, early: Option<Response>): (s: Option<Held>)
  {
    if early.Some? then Some(Held(early.value, at)) else Answered(env, at, verb)
  }

  /** All that is noted from the moment a request is complete until its outcome, and the step after that. */
  function EndEvents(env: Env, at: nat, verb: nat, callback: Option<nat>, early: Option<Response>, tries: seq<Try>)
    : (es: seq<Event>)
  {
    var status, slot := UpgradeStatus(env.upgrade(at)), SlotFor(env, at, verb, early);
    if status.Some? then [UpgraderAnswered(status.value)]
    else
      (if early.Some? then [] else AnswerEvents(env, at, verb, callback))
      + if slot.None? || tries == [] then [Escaped] else DeliveryEvents(env, slot.value.at, tries)
  }

  function EndStep(env: Env, at: nat, verb: nat, early: Option<Response>, tries: seq<Try>): (next: nat)
  {
    var status, slot := UpgradeStatus(env.upgrade(at)), SlotFor(env, at, verb, early);
    if status.Some? || slot.None? || tries == [] then at + 1
    else
      var queued := slot.value.at + |tries| + 1;
      if Last(tries).result == Some(Raw) then Past(env, queued, ResponseSent) else queued
  }

  /** The attempts are those of the slot; there are none when the upgrader answered or there is no slot. */
  ghost predicate TriedSo(env: Env, at: nat, verb: nat, early: Option<Response>, tries: seq<Try>)
  {
    var slot := SlotFor(env, at, verb, early);
    if UpgradeStatus(env.upgrade(at)).Some? || slot.None? then tries == []
    else Chain(env.backend, slot.value.at, slot.value.response, tries) && After(tries).None?
  }

  /** This slot was turned into a response or refused; or there was none, and the request ended in an exception. */
  ghost predicate Ends(b: Backend, s: Option<Held>, trace: seq<Event>, tries: seq<Try>)
  {
    && (Escaped in trace <==> s.None?)
    && (s.Some? ==> Delivered(b, s.value.at, s.value.response, trace, tries))
  }

  /** How a request that is complete at step `at` ends, with or without an early response in its slot. */
  ghost predicate EndsFrom(env: Env, at: nat, verb: nat, early: Option<Response>, trace: seq<Event>, tries: seq<Try>)
  {
    var status := UpgradeStatus(env.upgrade(at));
    if status.Some? then UpgraderAnswered(status.value) in trace && tries == []
    else Ends(env.backend, SlotFor(env, at, verb, early), trace, tries)
  }

  /** The response of the hook that fired last, if it gave one. Before routing every step is an event. */
  function Early(env: Env, trace: seq<Event>): (r: Option<Response>)
  {
    if trace == [] then None
    else
      match trace[|trace| - 1]
      case Fired(phase, true) => env.fire(|trace| - 1, phase)
      case _ => None
  }

  /**
   What fires for the first callback and `n` chunks: nothing more once a hook responded, and no chunk without a body.
   */
  function Heard(env: Env, hasBody: bool, n: nat): (trace: seq<Event>)
  {
    if n == 0 then
      if env.gate(0, RequestReceived) then [Fired(RequestReceived, env.fire(0, RequestReceived).Some?)] else []
    else
      var t := Heard(env, hasBody, n - 1);
      if hasBody && Early(env, t).None? && env.gate(|t|, BodyChunk) then
        t + [Fired(BodyChunk, env.fire(|t|, BodyChunk).Some?)]
      else t
  }

  /**
   With somebody listening to every phase: request_received once, then one body_chunk for each chunk of a body, up to
   the first hook that responds and no further.
   */
  lemma {:induction false} HeardByAll(env: Env, hasBody: bool, n: nat)
    requires forall i: nat, p: Phase :: env.gate(i, p)
    ensures var t := Heard(env, hasBody, n);
            && t != [] && t[0] == Fired(RequestReceived, env.fire(0, RequestReceived).Some?)
            && (forall i :: 0 < i < |t| ==> t[i] == Fired(BodyChunk, env.fire(i, BodyChunk).Some?))
            && (forall i :: 0 <= i < |t| - 1 ==> !t[i].responded)
            && |t| <= n + 1 && (|t| == n + 1 || t[|t| - 1].responded || !hasBody) && (!hasBody ==> |t| == 1)
  {
    if n > 0 { HeardByAll(env, hasBody, n - 1); }
  }

  /**
   With somebody listening to every phase and nobody responding, a request goes through the phases in the documented
   order, and each case leaves out just those that do not concern it.
   */
  lemma EveryPhaseFires(env: Env, at: nat, verb: nat, callback: Option<nat>)
    requires forall i: nat, p: Phase :: env.gate(i, p) && env.fire(i, p).None?
    ensures var es, looked := AnswerEvents(env, at, verb, callback), Looked(env.lookup(at));
            var routed, asked := Fired(RouteResolved, false), Fired(BeforeHandler, false);
            var called, threw, after :=
              Handler(verb, callback), Fired(HandlerException, false), Fired(AfterHandler, false);
            match env.lookup(at)
            case None => es == if env.backend.pageThrows(at + 2) then [looked, routed] else [looked, routed, after]
            case Some(res) =>
              es == if verb !in Mask(res.edits) then
                      if env.backend.pageThrows(at + 3) then [looked, routed, asked, threw, after]
                      else [looked, routed, asked, after]
                    else if env.handler(at + 4).Threw? then [looked, routed, asked, called, threw, after]
                    else [looked, routed, asked, called, after]
  {
    hide Mask;
  }

  /** And what is queued is reported by response_sent, next and last; what is refused is not. */
  lemma SentIsReported(env: Env, at: nat, tries: seq<Try>)
    requires tries != [] && env.gate(at + |tries| + 1, ResponseSent)
    ensures DeliveryEvents(env, at, tries) ==
            if Last(tries).result == Some(Raw) then [Queued(Last(tries).response), Fired(ResponseSent, false)]
            else [Refused]
  {
  }

  lemma NothingYet()
    ensures Good([]) && Below([], 3) && !ShortCircuited([])
  {
  }

  /** The handler is only ever called for the method of this request. */
  ghost predicate OwnHandlers(trace: seq<Event>, verb: nat, callback: Option<nat>)
  {
    forall e <- trace :: e.Handler? ==> e == Handler(verb, callback)
  }

  class Connection {
    const env: Env
    const wire: string
    var step: nat
    var verb: nat
    var callback: Option<nat>
    var hasBody: bool
    var skipHandler: bool
    var response: Option<Response>
    var bodyBytesSeen: nat
    var trace: seq<Event>
    var tries: seq<Try>

    /** The method is resolved; a short circuit is in the trace exactly when the handler is to be skipped. */
    ghost predicate Ready()
      reads this
    {
      && Running() && tries == [] && Below(trace, 3)
      && step == |trace| && response == Early(env, trace)
      && (skipHandler <==> ShortCircuited(trace)) && (skipHandler <==> response.Some?)
    }

    constructor (env: Env, wire: string)
      ensures Ready() && trace == [] && response.None? && !skipHandler && this.env == env && this.wire == wire
    {
      hide Good, ShortCircuited, Below, MethodTable, WireToken, TakesBody;
      this.env, this.wire := env, wire;
      step, skipHandler, response, bodyBytesSeen, trace, tries := 0, false, None, 0, [], [];
      new;
      NothingYet();
      verb, callback, hasBody := ResolveMethod(wire);
    }

    /** Between callbacks and inside them. */
    ghost predicate Running()
      reads this
    {
      && Resolved(wire, verb, callback, hasBody) && (verb in ValidMask() ==> callback == Some(verb))
      && Good(trace) && OwnHandlers(trace, verb, callback)
    }

    method Note(e: Event)
      requires Good(trace) && May(trace, e)
      modifies this`trace, this`step
      ensures Good(trace) && Below(trace, Rank(e) + 1) && trace == old(trace) + [e] && step == old(step) + 1
    {
      Grow(trace, e);
      trace, step := trace + [e], step + 1;
    }

    /** requests_answer_first_step. */
    method FirstStep()
      requires Ready() && trace == []
      modifies this
      ensures Ready()
      ensures var sc := if env.gate(old(step), RequestReceived) then env.fire(old(step), RequestReceived) else None;
              && trace == (if env.gate(old(step), RequestReceived) then [Fired(RequestReceived, sc.Some?)] else [])
              && response == (if sc.Some? then sc else old(response)) && hasBody == old(hasBody) && verb == old(verb)
    {
      hide Good, Resolved;
      if env.gate(step, RequestReceived) {
        var sc := env.fire(step, RequestReceived);
        Note(Fired(RequestReceived, sc.Some?));
        if sc.Some? { response, skipHandler := sc, true; }
      }
    }

    /** requests_answer_second_step with a chunk of the body. */
    method BodyData(size: nat)
      requires Ready() && size > 0
      modifies this
      ensures Ready() && hasBody == old(hasBody) && verb == old(verb)
      ensures var fires := old(hasBody && !skipHandler) && env.gate(old(step), BodyChunk);
              var sc := if fires then env.fire(old(step), BodyChunk) else None;
              && trace == old(trace) + (if fires then [Fired(BodyChunk, sc.Some?)] else [])
              && response == (if sc.Some? then sc else old(response))
              && bodyBytesSeen == old(bodyBytesSeen) + if fires then size else 0
    {
      hide Good, Resolved;
      assert trace + [] == trace;
      if !hasBody || skipHandler { return; }
      if env.gate(step, BodyChunk) {
        bodyBytesSeen := bodyBytesSeen + size;
        var sc := env.fire(step, BodyChunk);
        Note(Fired(BodyChunk, sc.Some?));
        if sc.Some? { response, skipHandler := sc, true; }
      }
    }

    /** Refilling the slot with a page. */
    method Refill(page: Page)
      modifies this`response, this`step
      ensures response == Some(env.backend.page(old(step), page)) && step == old(step) + 1
      ensures Held(response.value, step) == PageSlot(env, old(step), page)
    {
      response, step := Some(env.backend.page(step, page)), step + 1;
    }

    /** One attempt to turn the slot into a backend response, after putting a page into it. */
    method Attempt(page: Option<Page>) returns (m: Option<Materialized>)
      requires response.Some?
      modifies this`response, this`step, this`tries
      ensures tries == old(tries) + [Tried(env.backend, old(step), page, old(response).value)]
      ensures m == Last(tries).result && response == Some(Last(tries).response) && step == old(step) + 1
    {
      var t := Tried(env.backend, step, page, response.value);
      tries, step := tries + [t], step + 1;
      response := Some(t.response);
      m := t.result;
    }

    /**
     get_raw_response_with_fallback: every fallback the failures so far call for is tried, and the slot stays filled.
     */
    method RawResponse() returns (raw: bool)
      requires response.Some? && tries == []
      modifies this`response, this`step, this`tries
      ensures Chain(env.backend, old(step), old(response).value, tries) && step == old(step) + |tries|
      ensures response == Some(Last(tries).response)
      ensures raw <==> Last(tries).result == Some(Raw)
      ensures !raw ==> After(tries) == Some(EmptyErrorPage)
    {
      hide Chain, Tried;
      ghost var b, at, slot := env.backend, step, response.value;
      var m := Attempt(None);
      Start(b, at, slot);
      assert tries == [Tried(b, at, None, slot)];
      if m == Some(Null) {
        Materializer.Extend(b, at, slot, tries);
        m := Attempt(Some(ErrorPage));
        if m == Some(Null) { return false; }
      }
      if m == Some(Raw) { return true; }
      var page := if m == Some(ThrewInvalidArgument) then NotFoundPage else ErrorPage;
      assert m.value.ThrewInvalidArgument? || m.value.ThrewOther?;
      Materializer.Extend(b, at, slot, tries);
      m := Attempt(Some(page));
      raw := m == Some(Raw);
    }

    /** The fallbacks and then the empty 500: no backend response exactly when all of them fail. */
    method RawOrEmpty() returns (raw: bool)
      requires response.Some? && tries == []
      modifies this`response, this`step, this`tries
      ensures Chain(env.backend, old(step), old(response).value, tries) && After(tries).None?
      ensures response == Some(Last(tries).response)
      ensures raw <==> Last(tries).result == Some(Raw)
      ensures raw <==> !Hopeless(env.backend, old(step))
      ensures step == old(step) + |tries|
    {
      hide Chain, Hopeless, Tried;
      ghost var at, slot := step, response.value;
      raw := RawResponse();
      if !raw {
        Materializer.Extend(env.backend, at, slot, tries);
        var m := Attempt(Some(EmptyErrorPage));
        raw := m == Some(Raw);
      }
      RefusedExactly(env.backend, at, slot, tries);
    }

    /** materialize_and_queue_response: one outcome, a refusal exactly when the response and every fallback fail. */
    method MaterializeAndQueue()
      requires Running() && response.Some? && tries == [] && Below(trace, 9)
      modifies this`trace, this`response, this`step, this`tries
      ensures Running() && Below(trace, 11)
      ensures Chain(env.backend, old(step), old(response).value, tries) && After(tries).None?
      ensures response == Some(Last(tries).response)
      ensures trace == old(trace) + DeliveryEvents(env, old(step), tries)
      ensures step == (var queued := old(step) + |tries| + 1;
                       if Last(tries).result == Some(Raw) then Past(env, queued, ResponseSent) else queued)
      ensures Last(tries).result == Some(Raw) <==> !Hopeless(env.backend, old(step))
    {
      hide Good, Resolved, Chain, Hopeless, After;
      var raw := RawOrEmpty();
      ghost var start := trace;
      if !raw {
        Note(Refused);
        return;
      }
      Note(Queued(response.value));
      assert trace + [] == start + ([Queued(response.value)] + []) && trace + [] == trace;
      if env.gate(step, ResponseSent) {
        Note(Fired(ResponseSent, false));
        assert trace == start + ([Queued(response.value)] + [Fired(ResponseSent, false)]);
      }
    }

    /** handle_dispatch_exception: the chain's response, the empty 500 when the chain has none, or the error page. */
    method HandleException()
      requires Running() && Below(trace, 7) && !ShortCircuited(trace) && Looked(None) !in trace
      modifies this`trace, this`response, this`step
      ensures Running() && Below(trace, 8) && !ShortCircuited(trace)
      ensures response.Some? && Held(response.value, step) == ExceptionSlot(env, old(step))
      ensures trace == old(trace) + FiredAt(env, old(step), HandlerException)
    {
      hide Good, Resolved;
      assert trace + [] == trace;
      if !env.gate(step, HandlerException) {
        Refill(ErrorPage);
        return;
      }
      var sc := env.fire(step, HandlerException);
      Note(Fired(HandlerException, sc.Some?));
      if sc.Some? { response := sc; } else { Refill(EmptyErrorPage); }
    }

    /** dispatch_resource_handler. */
    method Dispatch(res: Resource)
      requires Running() && Below(trace, 6) && !ShortCircuited(trace)
      requires Looked(Some(res)) in trace && Looked(None) !in trace
      modifies this`trace, this`response, this`step
      ensures Running() && Below(trace, 8) && !ShortCircuited(trace) && response.Some? && old(trace) <= trace
      ensures trace == old(trace) + HandlerEvents(env, old(step), verb, callback, res)
      ensures Held(response.value, step) == HandlerSlot(env, old(step), verb, res)
    {
      hide Good, Resolved, Allows, ExceptionSlot, PageSlot, Reply;
      ghost var start, h := trace, Handler(verb, callback);
      assert start + [] == start && [h] + [] == [h];
      if verb in Mask(res.edits) {
        assert Entitled(trace, Handler(verb, callback));
        Note(Handler(verb, callback));
        match env.handler(step)
        case Returned(r, sentinel) =>
          response := Some(r);
          if sentinel { Refill(ErrorPage); }
        case Threw =>
          ghost var es := FiredAt(env, step, HandlerException);
          HandleException();
          assert (start + [h]) + es == start + ([h] + es);
      } else if env.backend.pageThrows(step) {
        HandleException();
      } else {
        Refill(MethodPage);
      }
    }

    /** fire_after_handler_gated may replace the response. */
    method AfterHandlerHooks()
      requires Running() && Below(trace, 8) && !ShortCircuited(trace) && response.Some?
      modifies this`trace, this`response, this`step
      ensures Running() && Below(trace, 9)
      ensures response.Some? && Held(response.value, step) == AfterSlot(env, Held(old(response).value, old(step)))
      ensures trace == old(trace) + FiredAt(env, old(step), AfterHandler)
    {
      hide Good, Resolved;
      assert trace + [] == trace;
      if env.gate(step, AfterHandler) {
        var sc := env.fire(step, AfterHandler);
        Note(Fired(AfterHandler, sc.Some?));
        if sc.Some? { response := sc; }
      }
    }

    /** Route lookup and route_resolved. */
    method Route() returns (found: Option<Resource>)
      requires Running() && Below(trace, 3) && !ShortCircuited(trace)
      modifies this`trace, this`step
      ensures Running() && Below(trace, 5) && Looked(found) in trace
      ensures trace == old(trace) + ([Looked(found)] + ObservedAt(env, old(step) + 1, RouteResolved))
      ensures found == env.lookup(old(step)) && !ShortCircuited(trace)
      ensures step == Past(env, old(step) + 1, RouteResolved) && response == old(response)
      ensures found.Some? ==> Looked(None) !in trace
    {
      hide Good, Resolved;
      assert Looked(None) !in trace by { assert forall e <- trace :: Rank(e) < 3; }
      ghost var start := trace;
      found := env.lookup(step);
      Note(Looked(found));
      assert trace == start + ([Looked(found)] + []);
      if env.gate(step, RouteResolved) {
        Note(Fired(RouteResolved, false));
        assert trace == start + ([Looked(found)] + [Fired(RouteResolved, false)]);
      }
    }

    /** fire_before_handler_gated; whether a hook responded. */
    method BeforeHandlerHooks() returns (cut: bool)
      requires Running() && Below(trace, 5) && !ShortCircuited(trace) && Looked(None) !in trace
      modifies this`trace, this`response, this`step
      ensures Running() && Below(trace, 6) && Looked(None) !in trace
      ensures step == Past(env, old(step), BeforeHandler) && cut == Reply(env, old(step), BeforeHandler).Some?
      ensures response == if cut then Reply(env, old(step), BeforeHandler) else old(response)
      ensures trace == old(trace) + FiredAt(env, old(step), BeforeHandler)
      ensures cut <==> ShortCircuited(trace)
    {
      hide Good, Resolved;
      assert trace + [] == trace;
      cut := false;
      if env.gate(step, BeforeHandler) {
        var sc := env.fire(step, BeforeHandler);
        Note(Fired(BeforeHandler, sc.Some?));
        if sc.Some? { response, cut := sc, true; }
      }
    }

    /** The handler of a found route unless before_handler responded, or the 404 page; then after_handler. */
    method RouteAndHandle() returns (escaped: bool)
      requires Running() && Below(trace, 3) && !ShortCircuited(trace) && response.None?
      modifies this`trace, this`response, this`step
      ensures Running() && Below(trace, 9) && !CutEarly(trace)
      ensures escaped <==> Answered(env, old(step), verb).None?
      ensures !escaped ==> response.Some? && Some(Held(response.value, step)) == Answered(env, old(step), verb)
      ensures trace == old(trace) + AnswerEvents(env, old(step), verb, callback)
    {
      hide Good, Resolved, Rules, Ordered, Mask, HandlerSlot, AfterSlot, FiredAt, ObservedAt, HandlerEvents;
      ghost var start := trace;
      var found := Route();
      ghost var looked := [Looked(found)] + ObservedAt(env, old(step) + 1, RouteResolved);
      escaped := false;
      if found.Some? {
        ghost var before := FiredAt(env, step, BeforeHandler);
        var cut := BeforeHandlerHooks();
        if cut {
          Regroup(start, looked, before, [], []);
          assert trace[|start|] == Looked(found);
          RoutedIsNotCut(trace, |start|);
          return;
        }
        ghost var handled := HandlerEvents(env, step, verb, callback, found.value);
        Dispatch(found.value);
        Regroup(start, looked, before, handled, FiredAt(env, step, AfterHandler));
      } else {
        if response.None? {
          if env.backend.pageThrows(step) {
            Regroup(start, looked, [], [], []);
            assert trace[|start|] == Looked(found);
            RoutedIsNotCut(trace, |start|);
            return true;
          }
          Refill(NotFoundPage);
        }
        Regroup(start, looked, FiredAt(env, step, AfterHandler), [], []);
      }
      AfterHandlerHooks();
      assert trace[|start|] == Looked(found);
      RoutedIsNotCut(trace, |start|);
    }

    /** finalize_answer. The upgrader is asked before a short circuit is honoured. */
    method Finalize()
      requires Ready()
      modifies this`trace, this`response, this`step, this`tries
      ensures Running() && Below(trace, 11)
      ensures TriedSo(env, old(step), verb, old(response), tries)
      ensures trace == old(trace) + EndEvents(env, old(step), verb, callback, old(response), tries)
      ensures Escaped !in trace ==> step == EndStep(env, old(step), verb, old(response), tries)
    {
      hide Good, Resolved, Rules, Ordered, Chain, Hopeless, After, Answered, UpgradeStatus, Early, AnswerEvents;
      ghost var start := trace;
      var status := UpgradeStatus(env.upgrade(step));
      if status.Some? {
        Note(UpgraderAnswered(status.value));
        return;
      }
      ghost var way: seq<Event> := [];
      if !skipHandler {
        way := AnswerEvents(env, step, verb, callback);
        var escaped := RouteAndHandle();
        if escaped {
          Note(Escaped);
          Regroup(start, way, [Escaped], [], []);
          assert trace[|trace| - 1] == Escaped;
          return;
        }
      }
      assert Below(trace, 9) by { assert forall e <- trace :: Rank(e) < 9; }
      ghost var at, slot := step, response.value;
      MaterializeAndQueue();
      ChainNonEmpty(env.backend, at, slot, tries);
      Regroup(start, way, DeliveryEvents(env, at, tries), [], []);
      assert start + [] == start;
    }

    /** MHD's completion callback. */
    method Completed()
      requires Running() && Below(trace, 11)
      modifies this`trace, this`step
      ensures Running() && trace == old(trace) + ObservedAt(env, old(step), RequestCompleted)
    {
      hide Good, Resolved;
      if env.gate(step, RequestCompleted) { Note(Fired(RequestCompleted, false)); }
    }

    /** The first callback and the body, in any chunks. */
    method Receive(chunks: seq<nat>)
      requires Ready() && trace == [] && forall i :: 0 <= i < |chunks| ==> chunks[i] > 0
      modifies this
      ensures Ready() && verb == old(verb) && hasBody == old(hasBody) && trace == Heard(env, hasBody, |chunks|)
    {
      hide Good, Resolved, Below, ShortCircuited, Early;
      FirstStep();
      for i := 0 to |chunks|
        invariant Ready() && verb == old(verb) && hasBody == old(hasBody) && trace == Heard(env, hasBody, i)
      {
        BodyData(chunks[i]);
      }
    }

    /**
     Every run of one request's callbacks: the body in any chunks, cut off by the client or answered. Its trace is
     what fires while the request comes in, then what its end comes to, then the completion callback unless an
     exception escaped. It is in phase order and keeps the rules; what is queued or refused is what the attempts on
     the slot led to.
     */
    method Serve(chunks: seq<nat>, answered: bool)
      requires Ready() && trace == [] && forall i :: 0 <= i < |chunks| ==> chunks[i] > 0
      modifies this
      ensures Good(trace) && Resolved(wire, verb, callback, hasBody)
      ensures forall e <- trace :: e.Handler? ==> e == Handler(verb, Some(verb)) && WireToken(e.verb) == wire
      ensures answered <==> exists i :: 0 <= i < |trace| && IsOutcome(trace[i])
      ensures var heard := Heard(env, hasBody, |chunks|);
              var early := Early(env, heard);
              var ended := heard + EndEvents(env, |heard|, verb, callback, early, tries);
              && (early.Some? <==> CutEarly(trace))
              && (!answered ==> trace == heard + ObservedAt(env, |heard|, RequestCompleted))
              && (answered ==>
                    && TriedSo(env, |heard|, verb, early, tries) && EndsFrom(env, |heard|, verb, early, trace, tries)
                    && trace == ended +
                         if Escaped in ended then []
                         else ObservedAt(env, EndStep(env, |heard|, verb, early, tries), RequestCompleted))
    {
      hide Good, Resolved, EndsFrom, Early, Heard, UpgradeStatus, EndEvents, EndStep, TriedSo, ObservedAt, Rank;
      Receive(chunks);
      ghost var heard, early := trace, response;
      HeardOnly(heard, early.Some?);
      if answered {
        Finalize();
        EndMeans(env, |heard|, verb, callback, early, heard, trace, tries);
        HandlersAreSent(wire, verb, callback, hasBody, trace);
        if Escaped in trace {
          assert trace + [] == trace;
          return;
        }
      }
      ghost var before := trace;
      ghost var last := ObservedAt(env, step, RequestCompleted);
      FiredAtIs(env, step, RequestCompleted);
      Completed();
      KeepsEnd(env, |heard|, verb, early, before, last, tries);
      HandlersAreSent(wire, verb, callback, hasBody, trace);
    }
  }

  /** While a request comes in only the first two phases fire, so a cut then is an early one. */
  lemma HeardOnly(heard: seq<Event>, cut: bool)
    requires Below(heard, 3) && (cut <==> ShortCircuited(heard))
    ensures (cut <==> CutEarly(heard)) && forall e <- heard :: !IsOutcome(e)
  {
    NotYet(heard, Fired(BeforeHandler, true), 3);
  }

  /** What the events of an end say. */
  lemma EndMeans(env: Env, at: nat, verb: nat, callback: Option<nat>, early: Option<Response>, heard: seq<Event>,
                 trace: seq<Event>, tries: seq<Try>)
    requires Below(heard, 3) && TriedSo(env, at, verb, early, tries)
    requires trace == heard + EndEvents(env, at, verb, callback, early, tries)
    ensures EndsFrom(env, at, verb, early, trace, tries) && CutEarly(trace) == CutEarly(heard)
    ensures exists i :: 0 <= i < |trace| && IsOutcome(trace[i])
  {
    hide Chain, After, Hopeless, Answered, UpgradeStatus, AnswerEvents, Rank, ObservedAt;
    EarlyEvents(heard);
    HandlerCalledExactly(env, at, verb, callback);
    var slot := SlotFor(env, at, verb, early);
    if UpgradeStatus(env.upgrade(at)).Some? {
      assert trace[|trace| - 1].UpgraderAnswered?;
    } else if slot.None? {
      assert trace[|trace| - 1] == Escaped;
    } else {
      ChainNonEmpty(env.backend, slot.value.at, slot.value.response, tries);
      var way := if early.Some? then [] else AnswerEvents(env, at, verb, callback);
      Regroup(heard, way, DeliveryEvents(env, slot.value.at, tries), [], []);
      DeliveryMeans(env, slot.value.at, slot.value.response, heard + way, tries);
    }
  }

  /** A delivery after events that hold no outcome is the one outcome. */
  lemma DeliveryMeans(env: Env, at: nat, slot: Response, before: seq<Event>, tries: seq<Try>)
    requires Chain(env.backend, at, slot, tries) && After(tries).None? && tries != []
    requires forall e <- before :: !IsOutcome(e)
    ensures var trace := before + DeliveryEvents(env, at, tries);
            && Delivered(env.backend, at, slot, trace, tries) && Escaped !in trace
            && CutEarly(trace) == CutEarly(before)
            && exists i :: 0 <= i < |trace| && IsOutcome(trace[i])
  {
    hide Chain, After, Hopeless, Answered, ObservedAt;
    RefusedExactly(env.backend, at, slot, tries);
    FiredAtIs(env, at + |tries| + 1, ResponseSent);
    var trace := before + DeliveryEvents(env, at, tries);
    assert trace[|before|] == if Last(tries).result == Some(Raw) then Queued(Last(tries).response) else Refused;
  }

  lemma ChainNonEmpty(b: Backend, at: nat, slot: Response, log: seq<Try>)
    requires Chain(b, at, slot, log)
    ensures log != []
  {
  }

  lemma EarlyEvents(heard: seq<Event>)
    requires Below(heard, 3)
    ensures forall e <- heard :: !IsOutcome(e)
  {
  }

  /** So a handler that runs is that of the method whose token was sent. */
  lemma HandlersAreSent(wire: string, verb: nat, callback: Option<nat>, hasBody: bool, trace: seq<Event>)
    requires Resolved(wire, verb, callback, hasBody) && Good(trace) && OwnHandlers(trace, verb, callback)
    ensures forall e <- trace :: e.Handler? ==> e == Handler(verb, Some(verb)) && WireToken(e.verb) == wire
  {
    hide WireToken, TakesBody, Ordered;
    forall e <- trace | e.Handler? ensures e == Handler(verb, Some(verb)) && WireToken(e.verb) == wire {
      assert Entitled(trace, e);
    }
  }

  /** What the completion callback adds changes no outcome. */
  lemma KeepsEnd(env: Env, at: nat, verb: nat, early: Option<Response>, before: seq<Event>, last: seq<Event>,
                 tries: seq<Try>)
    requires forall e <- last :: e == Fired(RequestCompleted, false)
    ensures forall e: Event :: IsOutcome(e) ==> (e in before + last <==> e in before)
    ensures (exists i :: 0 <= i < |before| && IsOutcome(before[i])) <==>
            (exists i :: 0 <= i < |before + last| && IsOutcome((before + last)[i]))
    ensures CutEarly(before + last) == CutEarly(before)
    ensures EndsFrom(env, at, verb, early, before + last, tries) == EndsFrom(env, at, verb, early, before, tries)
  {
    hide Chain, After, Hopeless, Answered, UpgradeStatus;
    var trace := before + last;
    assert forall e: Event :: e != Fired(RequestCompleted, false) ==> (e in trace <==> e in before);
    if i :| 0 <= i < |before| && IsOutcome(before[i]) { assert IsOutcome(trace[i]); }
    if i :| 0 <= i < |trace| && IsOutcome(trace[i]) {
      assert trace[i] in before;
      var j :| 0 <= j < |before| && before[j] == trace[i];
    }
  }

  lemma Regroup(a: seq<Event>, b: seq<Event>, c: seq<Event>, d: seq<Event>, e: seq<Event>)
    ensures (((a + b) + c) + d) + e == a + (b + (c + (d + e)))
    ensures c + [] == c && a + b + [] == a + b && b + [] == b && (a + b) + c == a + (b + c)
  {
  }

  lemma RoutedIsNotCut(trace: seq<Event>, i: nat)
    requires Good(trace) && i < |trace| && trace[i].Looked?
    ensures !CutEarly(trace)
  {
    assert trace[i] in trace && Rank(trace[i]) == 3;
    hide CutEarly, Ordered, Entitled;
  }

  lemma FiredAtIs(env: Env, at: nat, p: Phase)
    ensures forall e <- FiredAt(env, at, p) :: e == Fired(p, env.fire(at, p).Some?)
    ensures FiredAt(env, at, p) != [] <==> env.gate(at, p)
    ensures forall e <- ObservedAt(env, at, p) :: e == Fired(p, false)
    ensures ObservedAt(env, at, p) != [] <==> env.gate(at, p)
  {
  }

  lemma HandlerEventsAre(env: Env, at: nat, verb: nat, callback: Option<nat>, res: Resource)
    ensures var es := HandlerEvents(env, at, verb, callback, res);
            && (Handler(verb, callback) in es <==> verb in Mask(res.edits))
            && (forall e <- es :: e == Handler(verb, callback) || (e.Fired? && e.phase == HandlerException))
  {
    hide Mask, FiredAt;
    FiredAtIs(env, at, HandlerException);
    FiredAtIs(env, at + 1, HandlerException);
  }

  /** What may be noted on the way to an answer. */
  predicate OnTheWay(e: Event, verb: nat, callback: Option<nat>)
  {
    || e.Looked? || e == Handler(verb, callback) || e == Fired(RouteResolved, false)
    || (e.Fired? && (e.phase == BeforeHandler || e.phase == HandlerException || e.phase == AfterHandler))
  }

  /** The handler of a request is called exactly when its route is found, before_handler passes and it is allowed. */
  lemma HandlerCalledExactly(env: Env, at: nat, verb: nat, callback: Option<nat>)
    ensures var es, routed := AnswerEvents(env, at, verb, callback), Past(env, at + 1, RouteResolved);
            && (Handler(verb, callback) in es <==>
                  && env.lookup(at).Some? && verb in Mask(env.lookup(at).value.edits)
                  && Reply(env, routed, BeforeHandler).None?)
            && (Fired(BeforeHandler, true) in es <==> env.lookup(at).Some? && Reply(env, routed, BeforeHandler).Some?)
            && (forall e <- es :: OnTheWay(e, verb, callback))
  {
    hide Mask, HandlerSlot, FiredAt, ObservedAt, HandlerEvents;
    var routed := Past(env, at + 1, RouteResolved);
    FiredAtIs(env, at + 1, RouteResolved);
    FiredAtIs(env, routed + 1, AfterHandler);
    if env.lookup(at).Some? {
      var res, next := env.lookup(at).value, Past(env, routed, BeforeHandler);
      FiredAtIs(env, routed, BeforeHandler);
      var before := FiredAt(env, routed, BeforeHandler);
      if env.gate(routed, BeforeHandler) { assert before[0] in before; }
      HandlerEventsAre(env, next, verb, callback, res);
      FiredAtIs(env, HandlerSlot(env, next, verb, res).at, AfterHandler);
    }
  }

  lemma NotYet(trace: seq<Event>, e: Event, rank: nat)
    requires Below(trace, rank) && rank <= Rank(e)
    ensures e !in trace
  {
  }

  lemma OneOutcome(trace: seq<Event>, n: nat)
    requires Good(trace) && n < |trace| && IsOutcome(trace[n])
    ensures forall e <- trace :: IsOutcome(e) ==> e == trace[n]
  {
    assert forall i :: 0 <= i < |trace| && i != n ==> Rank(trace[i]) != Rank(trace[n]);
  }

  /**
   A good trace has at most one outcome, at most one handler call, and response_sent at most once and only after it.
   */
  lemma OncePerRequest(trace: seq<Event>, i: nat, j: nat)
    requires Good(trace) && i < j < |trace|
    ensures !(IsOutcome(trace[i]) && IsOutcome(trace[j]))
    ensures !(trace[i].Handler? && trace[j].Handler?)
    ensures !(trace[i].Fired? && trace[j].Fired? && trace[i].phase == trace[j].phase && trace[i].phase != BodyChunk)
    ensures !(trace[i] == Fired(ResponseSent, false) && IsOutcome(trace[j]))
    ensures !(IsOutcome(trace[i]) && trace[j].Handler?)
  {
    assert Rank(trace[i]) < Rank(trace[j]) || (Rank(trace[i]) == 2 && Rank(trace[j]) == 2);
  }
}
