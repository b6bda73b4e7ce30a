/**
 Who closes a descriptor. File and pipe bodies hold one each, in the response's inline buffer or
 on the heap; responses are moved, assigned over, materialised and destroyed. Every descriptor is
 closed by the library or handed to the backend exactly once, and every heap body freed once.
 */
module ResponseOwnership {
  import opened Wrappers

  // ---- conservation ----------------------------------------------------------------------

  /** Things known to exist, each held by one owner or spent once. */
  datatype Ledger = Ledger(held: map<nat, nat>, spent: multiset<nat>, known: set<nat>)

  ghost predicate Conserved(l: Ledger)
  {
    && (forall n <- l.held :: l.held[n] in l.known && l.spent[l.held[n]] == 0)
    && (forall m, n :: m in l.held && n in l.held && m != n ==> l.held[m] != l.held[n])
    && (forall d <- l.known :: l.spent[d] == 1 || exists n :: n in l.held && l.held[n] == d)
    && (forall d :: d !in l.known ==> l.spent[d] == 0)
  }

  function Spend(l: Ledger, n: nat): (r: Ledger)
  {
    if n in l.held then l.(held := l.held - {n}, spent := l.spent + multiset{l.held[n]}) else l
  }

  function Pass(l: Ledger, to: nat, from: nat): (r: Ledger)
  {
    if from in l.held then l.(held := (l.held - {from})[to := l.held[from]]) else l
  }

  function Gain(l: Ledger, n: nat, d: nat): (r: Ledger) { l.(held := l.held[n := d], known := l.known + {d}) }

  lemma SpendConserves(l: Ledger, n: nat)
    requires Conserved(l)
    ensures Conserved(Spend(l, n))
  {
    if n in l.held {
      var r := Spend(l, n);
      forall d <- r.known ensures r.spent[d] == 1 || exists m :: m in r.held && r.held[m] == d {
        if d != l.held[n] && l.spent[d] != 1 {
          var m :| m in l.held && l.held[m] == d;
          assert m in r.held;
        }
      }
    }
  }

  lemma PassConserves(l: Ledger, to: nat, from: nat)
    requires Conserved(l) && (to == from || to !in l.held)
    ensures Conserved(Pass(l, to, from))
  {
    if from in l.held {
      var r := Pass(l, to, from);
      forall d <- r.known ensures r.spent[d] == 1 || exists m :: m in r.held && r.held[m] == d {
        if l.spent[d] != 1 {
          var m :| m in l.held && l.held[m] == d;
          assert r.held[if m == from then to else m] == d;
        }
      }
    }
  }

  lemma GainConserves(l: Ledger, n: nat, d: nat)
    requires Conserved(l) && n !in l.held && d !in l.known
    ensures Conserved(Gain(l, n, d))
  {
    var r := Gain(l, n, d);
    forall e <- r.known ensures r.spent[e] == 1 || exists m :: m in r.held && r.held[m] == e {
      if e == d {
        assert r.held[n] == e;
      } else if l.spent[e] != 1 {
        var m :| m in l.held && l.held[m] == e;
        assert r.held[m] == e;
      }
    }
  }

  // ---- bodies ----------------------------------------------------------------------------

  datatype Kind = FileBody | PipeBody | PlainBody

  datatype Body = Body(kind: Kind, fd: Option<nat>, size: nat, materialized: bool)

  /** body_ and body_inline_: nothing, a body in the inline buffer, or a body at a heap address. */
  datatype Storage = NoBody | Inline(body: Body) | Heap(address: nat, body: Body)

  /** The descriptor the body's destructor would close. */
  function Holds(b: Body): (d: Option<nat>) { if b.materialized then None else b.fd }

  function HeldBy(s: Storage): (d: Option<nat>) { if s.NoBody? then None else Holds(s.body) }

  /** A body's move constructor, and what it leaves in the source. */
  function MovedBody(b: Body): (r: (Body, Body)) { (b, b.(fd := None, materialized := true)) }

  /** Closed descriptors, descriptors handed over, and freed addresses. */
  datatype Effects = Effects(closed: multiset<nat>, handed: multiset<nat>, freed: multiset<nat>)

  function Closing(e: Effects, d: Option<nat>): (r: Effects)
  {
    if d.Some? then e.(closed := e.closed + multiset{d.value}) else e
  }

  function Freeing(e: Effects, s: Storage): (r: Effects)
  {
    if s.Heap? then e.(freed := e.freed + multiset{s.address}) else e
  }

  /** destroy_body. */
  function DestroyEffects(e: Effects, s: Storage): (r: Effects) { Freeing(Closing(e, HeldBy(s)), s) }

  /** materialize: the storage after it, given whether the backend made a response. */
  function AfterMaterialize(s: Storage, made: bool): (r: Storage)
  {
    if s.NoBody? || s.body.kind.PlainBody? || (s.body.kind.FileBody? && s.body.fd.None?) then s
    else if s.body.kind.FileBody? && s.body.size == 0 then s.(body := s.body.(fd := None))
    else if made then s.(body := s.body.(materialized := true))
    else s
  }

  function MaterializeEffects(e: Effects, s: Storage, made: bool): (r: Effects)
  {
    if s.NoBody? || s.body.kind.PlainBody? || s.body.fd.None? then e
    else if s.body.kind.FileBody? && s.body.size == 0 then e.(closed := e.closed + multiset{s.body.fd.value})
    else if made then e.(handed := e.handed + multiset{s.body.fd.value})
    else e
  }

  // ---- the object ------------------------------------------------------------------------

  class Backend {
    var effects: Effects

    constructor ()
      ensures effects == Effects(multiset{}, multiset{}, multiset{})
    {
      effects := Effects(multiset{}, multiset{}, multiset{});
    }

    method Close(d: nat)
      modifies this
      ensures effects == Closing(old(effects), Some(d))
    {
      effects := effects.(closed := effects.closed + multiset{d});
    }
  }

  /** The file body's constructor: what cannot be served is closed again at once. */
  method OpenFileBody(fd: Option<nat>, regular: bool, size: int, limit: nat, backend: Backend) returns (b: Body)
    modifies backend
    ensures b.kind.FileBody? && !b.materialized
    ensures fd.Some? && regular && 0 <= size <= limit ==>
              b.fd == fd && b.size == size && backend.effects == old(backend.effects)
    ensures !(fd.Some? && regular && 0 <= size <= limit) ==>
              b.fd.None? && backend.effects == Closing(old(backend.effects), fd)
  {
    b := Body(FileBody, fd, 0, false);
    if fd.None? { return; }
    if !regular || size < 0 || size > limit {
      backend.Close(fd.value);
      return b.(fd := None);
    }
    b := b.(size := size);
  }

  /** The destructor of a body. */
  method DestroyBodyObject(b: Body, backend: Backend)
    modifies backend
    ensures backend.effects == Closing(old(backend.effects), Holds(b))
  {
    if !b.materialized && b.fd.Some? { backend.Close(b.fd.value); }
  }

  class HttpResponse {
    var storage: Storage

    constructor (storage: Storage)
      ensures this.storage == storage
    {
      this.storage := storage;
    }

    method DestroyBody(backend: Backend)
      modifies this, backend
      ensures storage == NoBody && backend.effects == DestroyEffects(old(backend.effects), old(storage))
    {
      if storage.NoBody? { return; }
      DestroyBodyObject(storage.body, backend);
      if storage.Heap? {
        backend.effects := backend.effects.(freed := backend.effects.freed + multiset{storage.address});
      }
      storage := NoBody;
    }

    /** An inline body is move-constructed and its husk destroyed; a heap body changes owner. */
    method AdoptBodyFrom(other: HttpResponse, backend: Backend)
      requires other != this && storage.NoBody?
      modifies this, other, backend
      ensures storage == old(other.storage) && other.storage == NoBody
      ensures backend.effects == old(backend.effects)
    {
      if other.storage.NoBody? { return; }
      if other.storage.Inline? {
        var moved := MovedBody(other.storage.body);
        storage := Inline(moved.0);
        DestroyBodyObject(moved.1, backend);
      } else {
        storage := other.storage;
      }
      other.storage := NoBody;
    }

    /** Move assignment; assigning a response to itself does nothing. */
    method Assign(other: HttpResponse, backend: Backend)
      modifies this, other, backend
      ensures this == other ==> storage == old(storage) && backend.effects == old(backend.effects)
      ensures this != other ==>
                && storage == old(other.storage) && other.storage == NoBody
                && backend.effects == DestroyEffects(old(backend.effects), old(storage))
    {
      if this == other { return; }
      DestroyBody(backend);
      AdoptBodyFrom(other, backend);
    }

    /** materialize, given whether the backend would make a response. A file that is not open gives none. */
    method Materialize(made: bool, backend: Backend) returns (raw: bool)
      modifies this, backend
      ensures raw <==>
                made && !old(storage).NoBody? && !(old(storage).body.kind.FileBody? && old(storage).body.fd.None?)
      ensures storage == AfterMaterialize(old(storage), made)
      ensures backend.effects == MaterializeEffects(old(backend.effects), old(storage), made)
    {
      if storage.NoBody? { return false; }
      var b := storage.body;
      if b.kind.PlainBody? { return made; }
      if b.kind.FileBody? && b.fd.None? { return false; }
      if b.kind.FileBody? && b.size == 0 {
        backend.Close(b.fd.value);
        storage := storage.(body := b.(fd := None));
        return made;
      }
      if made {
        if b.fd.Some? { backend.effects := backend.effects.(handed := backend.effects.handed + multiset{b.fd.value}); }
        storage := storage.(body := b.(materialized := true));
      }
      raw := made;
    }
  }

  // ---- runs ------------------------------------------------------------------------------

  /** Named responses; the `descriptors` and heap `addresses` ever made are never named twice. */
  datatype World = World(responses: map<nat, Storage>, effects: Effects, descriptors: set<nat>, addresses: set<nat>)

  datatype Op =
    | Create(name: nat, storage: Storage)
    | OpenFails(fd: nat)
    | MoveConstruct(to: nat, from: nat)
    | MoveAssign(to: nat, from: nat)
    | Materialize(name: nat, made: bool)
    | Destroy(name: nat)

  /** A new body has a descriptor of its own, or none; a body on the heap an address of its own. */
  predicate IsNew(w: World, s: Storage)
  {
    s.NoBody? || (!s.body.materialized
                  && (s.body.kind.PlainBody? ==> s.body.fd.None?)
                  && (s.body.fd.Some? ==> s.body.fd.value !in w.descriptors)
                  && (s.Heap? ==> s.address !in w.addresses))
  }

  /** A response is not materialised again once the backend has its descriptor. */
  predicate Possible(w: World, op: Op)
  {
    match op
    case Create(n, s) => n !in w.responses && IsNew(w, s)
    case OpenFails(fd) => fd !in w.descriptors
    case MoveConstruct(to, from) => to !in w.responses && from in w.responses
    case MoveAssign(to, from) => to in w.responses && from in w.responses
    case Materialize(n, _) => n in w.responses && (w.responses[n].NoBody? || !w.responses[n].body.materialized)
    case Destroy(n) => n in w.responses
  }

  function Next(w: World, op: Op): (r: World)
    requires Possible(w, op)
  {
    match op
    case Create(n, s) =>
      w.(responses := w.responses[n := s],
         descriptors := if HeldBy(s).Some? then w.descriptors + {HeldBy(s).value} else w.descriptors,
         addresses := if s.Heap? then w.addresses + {s.address} else w.addresses)
    case OpenFails(fd) => w.(effects := Closing(w.effects, Some(fd)), descriptors := w.descriptors + {fd})
    case MoveConstruct(to, from) => w.(responses := w.responses[to := w.responses[from]][from := NoBody])
    case MoveAssign(to, from) =>
      if to == from then w
      else w.(responses := w.responses[to := w.responses[from]][from := NoBody],
              effects := DestroyEffects(w.effects, w.responses[to]))
    case Materialize(n, made) =>
      w.(responses := w.responses[n := AfterMaterialize(w.responses[n], made)],
         effects := MaterializeEffects(w.effects, w.responses[n], made))
    case Destroy(n) => w.(responses := w.responses - {n}, effects := DestroyEffects(w.effects, w.responses[n]))
  }

  /** Which response holds which descriptor, and which has its body at which address. */
  function HeldMap(rs: map<nat, Storage>): (h: map<nat, nat>)
  {
    map n | n in rs && HeldBy(rs[n]).Some? :: HeldBy(rs[n]).value
  }

  function AddressMap(rs: map<nat, Storage>): (h: map<nat, nat>) { map n | n in rs && rs[n].Heap? :: rs[n].address }

  function Put(h: map<nat, nat>, n: nat, v: Option<nat>): (r: map<nat, nat>)
  {
    if v.Some? then h[n := v.value] else h - {n}
  }

  function AddressOf(s: Storage): (a: Option<nat>) { if s.Heap? then Some(s.address) else None }

  lemma HeldPut(rs: map<nat, Storage>, n: nat, s: Storage)
    ensures HeldMap(rs[n := s]) == Put(HeldMap(rs), n, HeldBy(s))
  {
  }

  lemma AddressPut(rs: map<nat, Storage>, n: nat, s: Storage)
    ensures AddressMap(rs[n := s]) == Put(AddressMap(rs), n, AddressOf(s))
  {
  }

  lemma HeldAt(rs: map<nat, Storage>, n: nat)
    requires n in rs
    ensures n in HeldMap(rs) <==> HeldBy(rs[n]).Some?
    ensures n in HeldMap(rs) ==> HeldMap(rs)[n] == HeldBy(rs[n]).value
    ensures n in AddressMap(rs) <==> AddressOf(rs[n]).Some?
    ensures n in AddressMap(rs) ==> AddressMap(rs)[n] == AddressOf(rs[n]).value
  {
  }

  lemma NothingAt(rs: map<nat, Storage>, n: nat)
    requires n in rs ==> rs[n].NoBody?
    ensures n !in HeldMap(rs) && n !in AddressMap(rs)
  {
  }

  ghost function Descriptors(w: World): (l: Ledger)
  {
    Ledger(HeldMap(w.responses), w.effects.closed + w.effects.handed, w.descriptors)
  }

  ghost function Addresses(w: World): (l: Ledger) { Ledger(AddressMap(w.responses), w.effects.freed, w.addresses) }

  ghost predicate Inv(w: World) { Conserved(Descriptors(w)) && Conserved(Addresses(w)) }

  lemma CreateKeeps(w: World, n: nat, s: Storage)
    requires Inv(w) && Possible(w, Create(n, s))
    ensures Inv(Next(w, Create(n, s)))
  {
    hide Conserved, HeldMap, AddressMap;
    HeldPut(w.responses, n, s);
    AddressPut(w.responses, n, s);
    NothingAt(w.responses, n);
    if HeldBy(s).Some? { GainConserves(Descriptors(w), n, HeldBy(s).value); }
    if s.Heap? { GainConserves(Addresses(w), n, s.address); }
    assert HeldMap(w.responses) - {n} == HeldMap(w.responses)
        && AddressMap(w.responses) - {n} == AddressMap(w.responses);
  }

  lemma PutMoves(h: map<nat, nat>, to: nat, from: nat, v: Option<nat>)
    requires to != from && to !in h && (from in h <==> v.Some?) && (from in h ==> h[from] == v.value)
    ensures Put(Put(h, to, v), from, None) == if from in h then (h - {from})[to := h[from]] else h
  {
  }

  lemma MoveKeeps(w: World, to: nat, from: nat)
    requires Inv(w) && from in w.responses && to != from && (to in w.responses ==> w.responses[to].NoBody?)
    ensures Inv(w.(responses := w.responses[to := w.responses[from]][from := NoBody]))
  {
    hide Conserved, HeldMap, AddressMap, Put;
    var rs, s := w.responses, w.responses[from];
    NothingAt(rs, to);
    PassConserves(Descriptors(w), to, from);
    PassConserves(Addresses(w), to, from);
    HeldPut(rs, to, s);
    HeldPut(rs[to := s], from, NoBody);
    AddressPut(rs, to, s);
    AddressPut(rs[to := s], from, NoBody);
    HeldAt(rs, from);
    PutMoves(HeldMap(rs), to, from, HeldBy(s));
    PutMoves(AddressMap(rs), to, from, AddressOf(s));
  }

  lemma SpentBag(a: multiset<nat>, b: multiset<nat>, d: nat)
    ensures (a + multiset{d}) + b == (a + b) + multiset{d} && a + (b + multiset{d}) == (a + b) + multiset{d}
  {
  }

  /** Running a response's destructor, with the response left empty. */
  lemma EmptyKeeps(w: World, n: nat)
    requires Inv(w) && n in w.responses
    ensures Inv(w.(responses := w.responses[n := NoBody], effects := DestroyEffects(w.effects, w.responses[n])))
  {
    hide Conserved, HeldMap, AddressMap;
    var rs, s := w.responses, w.responses[n];
    SpendConserves(Descriptors(w), n);
    SpendConserves(Addresses(w), n);
    HeldPut(rs, n, NoBody);
    AddressPut(rs, n, NoBody);
    HeldAt(rs, n);
    if HeldBy(s).Some? {
      SpentBag(w.effects.closed, w.effects.handed, HeldBy(s).value);
    } else {
      assert HeldMap(rs) - {n} == HeldMap(rs);
    }
    if !s.Heap? { assert AddressMap(rs) - {n} == AddressMap(rs); }
  }

  lemma ForgetKeeps(w: World, n: nat)
    requires Inv(w) && n in w.responses && w.responses[n].NoBody?
    ensures Inv(w.(responses := w.responses - {n}))
  {
    assert HeldMap(w.responses - {n}) == HeldMap(w.responses)
        && AddressMap(w.responses - {n}) == AddressMap(w.responses);
    hide Conserved;
  }

  /** Materialising a body for the first time spends its descriptor once or leaves it held. */
  lemma MaterializeSpends(e: Effects, s: Storage, made: bool)
    requires s.NoBody? || !s.body.materialized
    ensures var s', e' := AfterMaterialize(s, made), MaterializeEffects(e, s, made);
            && AddressOf(s') == AddressOf(s) && e'.freed == e.freed
            && ((HeldBy(s') == HeldBy(s) && e' == e)
                || (HeldBy(s').None? && HeldBy(s).Some?
                    && e'.closed + e'.handed == (e.closed + e.handed) + multiset{HeldBy(s).value}))
  {
    if HeldBy(s).Some? { SpentBag(e.closed, e.handed, HeldBy(s).value); }
  }

  lemma MaterializeKeeps(w: World, n: nat, made: bool)
    requires Inv(w) && Possible(w, Materialize(n, made))
    ensures Inv(Next(w, Materialize(n, made)))
  {
    hide AfterMaterialize, MaterializeEffects, Conserved, HeldMap, AddressMap, HeldBy, AddressOf;
    var rs, s, s' := w.responses, w.responses[n], AfterMaterialize(w.responses[n], made);
    MaterializeSpends(w.effects, s, made);
    SpendConserves(Descriptors(w), n);
    HeldPut(rs, n, s');
    AddressPut(rs, n, s');
    HeldAt(rs, n);
    assert Put(AddressMap(rs), n, AddressOf(s')) == AddressMap(rs);
    if HeldBy(s) == HeldBy(s') { assert Put(HeldMap(rs), n, HeldBy(s')) == HeldMap(rs); }
  }

  lemma OpenFailsKeeps(w: World, fd: nat)
    requires Inv(w) && fd !in w.descriptors
    ensures Inv(Next(w, OpenFails(fd)))
  {
    var w' := Next(w, OpenFails(fd));
    var d, d' := Descriptors(w), Descriptors(w');
    assert d'.held == d.held && d'.spent == d.spent + multiset{fd} && d'.known == d.known + {fd};
    assert Conserved(d') by {
      forall e <- d'.known ensures d'.spent[e] == 1 || exists m :: m in d'.held && d'.held[m] == e {
        if e != fd && d.spent[e] != 1 {
          var m :| m in d.held && d.held[m] == e;
          assert d'.held[m] == e;
        }
      }
    }
    assert Addresses(w') == Addresses(w);
  }

  lemma NextKeeps(w: World, op: Op)
    requires Inv(w) && Possible(w, op)
    ensures Inv(Next(w, op))
  {
    hide Inv, DestroyEffects, AfterMaterialize, MaterializeEffects, IsNew;
    match op
    case Create(n, s) => CreateKeeps(w, n, s);
    case OpenFails(fd) => OpenFailsKeeps(w, fd);
    case MoveConstruct(to, from) => MoveKeeps(w, to, from);
    case MoveAssign(to, from) =>
      if to != from {
        EmptyKeeps(w, to);
        var w1 := w.(responses := w.responses[to := NoBody], effects := DestroyEffects(w.effects, w.responses[to]));
        MoveKeeps(w1, to, from);
        assert w1.responses[to := w1.responses[from]][from := NoBody]
            == w.responses[to := w.responses[from]][from := NoBody];
      }
    case Materialize(n, made) => MaterializeKeeps(w, n, made);
    case Destroy(n) =>
      EmptyKeeps(w, n);
      var w1 := w.(responses := w.responses[n := NoBody], effects := DestroyEffects(w.effects, w.responses[n]));
      ForgetKeeps(w1, n);
      assert w1.responses - {n} == w.responses - {n};
  }

  predicate CanRun(w: World, ops: seq<Op>)
    decreases |ops|
  {
    ops == [] || (Possible(w, ops[0]) && CanRun(Next(w, ops[0]), ops[1..]))
  }

  function Ran(w: World, ops: seq<Op>): (r: World)
    requires CanRun(w, ops)
    decreases |ops|
  {
    if ops == [] then w else Ran(Next(w, ops[0]), ops[1..])
  }

  function Start(): (w: World) { World(map[], Effects(multiset{}, multiset{}, multiset{}), {}, {}) }

  lemma {:induction false} RunKeeps(w: World, ops: seq<Op>)
    requires Inv(w) && CanRun(w, ops)
    ensures Inv(Ran(w, ops))
    decreases |ops|
  {
    if ops != [] {
      hide Inv, Next, Possible;
      NextKeeps(w, ops[0]);
      RunKeeps(Next(w, ops[0]), ops[1..]);
    }
  }

  /** In every run a descriptor is never closed or handed over twice, and is held by one live response until it is. */
  lemma EveryDescriptorOnce(ops: seq<Op>, d: nat)
    requires CanRun(Start(), ops) && d in Ran(Start(), ops).descriptors
    ensures var w := Ran(Start(), ops);
            var times := w.effects.closed[d] + w.effects.handed[d];
            && times <= 1
            && (times == 0 <==> exists n :: n in w.responses && HeldBy(w.responses[n]) == Some(d))
            && (forall m, n ::
                  && m in w.responses && n in w.responses
                  && HeldBy(w.responses[m]) == HeldBy(w.responses[n]) == Some(d)
                  ==> m == n)
  {
    assert Inv(Start());
    RunKeeps(Start(), ops);
    var w := Ran(Start(), ops);
    var l := Descriptors(w);
    hide Ran;
    assert l.spent[d] == w.effects.closed[d] + w.effects.handed[d];
    forall n | n in w.responses && HeldBy(w.responses[n]) == Some(d) ensures n in l.held && l.held[n] == d {
    }
    if l.spent[d] == 0 {
      var n :| n in l.held && l.held[n] == d;
      assert n in w.responses && HeldBy(w.responses[n]) == Some(d);
    }
  }

  /**
   Once every response is gone, every descriptor was closed or handed over exactly once, and every heap body freed
   once.
   */
  lemma NothingLeaks(ops: seq<Op>)
    requires CanRun(Start(), ops) && Ran(Start(), ops).responses == map[]
    ensures var w := Ran(Start(), ops);
            && (forall d <- w.descriptors :: w.effects.closed[d] + w.effects.handed[d] == 1)
            && (forall a <- w.addresses :: w.effects.freed[a] == 1)
  {
    assert Inv(Start());
    RunKeeps(Start(), ops);
    var w := Ran(Start(), ops);
    hide Ran;
    assert Descriptors(w).held == map[] && Addresses(w).held == map[];
    assert forall d :: Descriptors(w).spent[d] == w.effects.closed[d] + w.effects.handed[d];
  }

  /** The operation gives a descriptor to the backend: a first, successful materialisation of a body with content. */
  predicate HandsOver(w: World, op: Op, d: nat)
  {
    && op.Materialize? && op.made && op.name in w.responses && HeldBy(w.responses[op.name]) == Some(d)
    && (w.responses[op.name].body.kind.PipeBody? || w.responses[op.name].body.size > 0)
  }

  predicate WasHandedOver(w: World, ops: seq<Op>, d: nat)
    requires CanRun(w, ops)
    decreases |ops|
  {
    ops != [] && (HandsOver(w, ops[0], d) || WasHandedOver(Next(w, ops[0]), ops[1..], d))
  }

  /** No body without a descriptor of its own kind is ever made: what holds one is a file or a pipe. */
  ghost predicate PlainHoldsNothing(w: World)
  {
    forall n <- w.responses :: HeldBy(w.responses[n]).Some? ==> !w.responses[n].body.kind.PlainBody?
  }

  lemma NextHands(w: World, op: Op, d: nat)
    requires Possible(w, op) && PlainHoldsNothing(w)
    ensures PlainHoldsNothing(Next(w, op))
    ensures Next(w, op).effects.handed[d] == w.effects.handed[d] + if HandsOver(w, op, d) then 1 else 0
  {
  }

  lemma {:induction false} RunHands(w: World, ops: seq<Op>, d: nat)
    requires CanRun(w, ops) && PlainHoldsNothing(w)
    ensures Ran(w, ops).effects.handed[d] >= w.effects.handed[d]
    ensures Ran(w, ops).effects.handed[d] > w.effects.handed[d] <==> WasHandedOver(w, ops, d)
    decreases |ops|
  {
    hide Next, HandsOver, Possible, PlainHoldsNothing;
    if ops != [] {
      NextHands(w, ops[0], d);
      RunHands(Next(w, ops[0]), ops[1..], d);
    }
  }

  /**
   In every run a descriptor went to the backend exactly when its response was materialised with success and content;
   any other that is no longer held was closed.
   */
  lemma HandedOverExactly(ops: seq<Op>, d: nat)
    requires CanRun(Start(), ops) && d in Ran(Start(), ops).descriptors
    ensures var w := Ran(Start(), ops);
            var held := exists n :: n in w.responses && HeldBy(w.responses[n]) == Some(d);
            && (w.effects.handed[d] == 1 <==> WasHandedOver(Start(), ops, d))
            && (w.effects.closed[d] == 1 <==> !held && !WasHandedOver(Start(), ops, d))
            && (WasHandedOver(Start(), ops, d) ==> !held)
  {
    hide Ran, WasHandedOver, HeldBy;
    EveryDescriptorOnce(ops, d);
    RunHands(Start(), ops, d);
  }

  /** The condition on materialising is needed: a file body hands its descriptor over as often as it is materialised. */
  lemma TwiceMaterializedIsHandedTwice(e: Effects, fd: nat, size: nat)
    requires size > 0
    ensures var s := Inline(Body(FileBody, Some(fd), size, false));
            var once := AfterMaterialize(s, true);
            MaterializeEffects(MaterializeEffects(e, s, true), once, true).handed[fd] == e.handed[fd] + 2
  {
  }
}
